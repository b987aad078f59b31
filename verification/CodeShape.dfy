/** What the code generator keeps about the code under construction. */
module CodeShape {
  import opened Base
  import opened LuaVm
  import opened CodeGen

  ghost function Elems(l: seq<nat>): set<nat> { set x | x in l }

  ghost predicate Disjoint(a: seq<nat>, b: seq<nat>) { forall x :: x in a ==> x !in b }

  lemma DistinctAppend(a: seq<nat>, b: seq<nat>)
    requires Distinct(a) && Distinct(b) && Disjoint(a, b)
    ensures Distinct(a + b)
  {
    forall p, q | 0 <= p < q < |a + b| ensures (a + b)[p] != (a + b)[q] {
      if p < |a| <= q { assert a[p] in a && b[q - |a|] in b; }
    }
  }

  /** The instructions at the end of the code that still wait for something: the test and the
      jump of a comparison, or an instruction without a target register. */
  ghost function KindHoles(k: Kind): set<nat>
  {
    match k
    case VJmp(pc) => if pc > 0 then {pc - 1, pc} else {pc}
    case VReloc(pc) => {pc}
    case _ => {}
  }

  /** All that is unfinished about an expression. */
  ghost function Own(fs: FS, e: ExpDesc): set<nat>
  {
    Elems(e.t) + Elems(e.f) + Elems(fs.jpc) + KindHoles(e.k)
  }

  ghost predicate JumpsAt(code: seq<Instr>, l: seq<nat>, outer: set<nat>)
  {
    forall p :: p in l ==> p < |code| && code[p].Jmp? && p !in outer
  }

  ghost predicate KindOk(fs: FS, e: ExpDesc, outer: set<nat>)
  {
    match e.k
    case VJmp(q) =>
      && 0 < q && q + 1 == |fs.code| && fs.code[q].Jmp? && fs.code[q - 1].Cmp? && fs.jpc == []
      && OperandOk(|fs.k|, fs.code[q - 1].left) && OperandOk(|fs.k|, fs.code[q - 1].right)
      && q !in e.t && q !in e.f && q !in outer && q - 1 !in outer
    case VReloc(q) =>
      && q + 1 == |fs.code| && (fs.code[q].Not? || fs.code[q].GetUpval?) && fs.jpc == [] && q !in outer
      && WF(fs.code[..q], |fs.k|, outer + Elems(e.t) + Elems(e.f))
    case VK(i) => i < |fs.k|
    case VKNum(v) => !Falsy(v)
    case VLocal(r) => 0 <= r < fs.nact
    case VNonReloc(r) => 0 <= r < fs.free
    case _ => true
  }

  /** A constant that comes from the source is neither nil nor false. */
  predicate Proper(fs: FS, e: ExpDesc) { e.k.VK? ==> e.k.i < |fs.k| && !Falsy(fs.k[e.k.i]) }

  /** The generator between two calls, with `outer` the unfinished jumps of the expressions
      around this one. */
  ghost predicate StateOk(fs: FS, e: ExpDesc, outer: set<nat>)
  {
    && WF(fs.code, |fs.k|, outer + Own(fs, e))
    && JumpsAt(fs.code, e.t, outer) && JumpsAt(fs.code, e.f, outer) && JumpsAt(fs.code, fs.jpc, outer)
    && Distinct(e.t) && Distinct(e.f) && Distinct(fs.jpc) && Disjoint(e.t, e.f) && Disjoint(e.t, fs.jpc)
    && Disjoint(e.f, fs.jpc)
    && (forall p :: p in outer ==> p < |fs.code| && fs.code[p].Jmp?)
    && KindOk(fs, e, outer) && 0 <= fs.nact <= fs.free
  }

  /** An operation leaves alone what was finished. */
  ghost predicate Evolves(fs: FS, e: ExpDesc, fs': FS, e': ExpDesc)
  {
    forall i :: 0 <= i < |fs.code| && i !in Own(fs, e) ==> Intact(fs, e, fs', e', i)
  }

  ghost predicate Intact(fs: FS, e: ExpDesc, fs': FS, e': ExpDesc, i: nat)
    requires i < |fs.code|
  {
    && i < |fs'.code| && i !in Own(fs', e')
    && (fs'.code[i] == fs.code[i] || (i + 1 in Own(fs, e) && SameBut(fs.code[i], fs'.code[i])))
  }

  ghost predicate Keeps(fs: FS, e: ExpDesc, fs': FS, e': ExpDesc, outer: set<nat>)
  {
    && StateOk(fs', e', outer) && Evolves(fs, e, fs', e') && |fs.code| <= |fs'.code| && fs.k <= fs'.k
    && fs'.nact == fs.nact
    && (forall i :: 0 <= i < |fs.code| && (i in outer || i in Own(fs, e)) ==> !fs'.code[i].TestSet?)
    && (forall x :: Entry(fs.code, x) ==> Entry(fs'.code, x))
  }

  lemma KeepsTrans(fs: FS, e: ExpDesc, fs1: FS, e1: ExpDesc, fs2: FS, e2: ExpDesc, outer: set<nat>)
    requires StateOk(fs, e, outer) && Keeps(fs, e, fs1, e1, outer) && Keeps(fs1, e1, fs2, e2, outer)
    ensures Keeps(fs, e, fs2, e2, outer)
  {
    hide StateOk, Entry, Own;
    LastLands(fs, e, outer);
    forall i | 0 <= i < |fs.code| && i !in Own(fs, e) ensures Intact(fs, e, fs2, e2, i) {
      assert Intact(fs, e, fs1, e1, i);
      assert Intact(fs1, e1, fs2, e2, i);
      if i + 1 < |fs.code| && i + 1 !in Own(fs, e) { assert Intact(fs, e, fs1, e1, i + 1); }
    }
    forall i | 0 <= i < |fs.code| && (i in outer || i in Own(fs, e)) ensures !fs2.code[i].TestSet? {
      if i !in outer && i !in Own(fs1, e1) { assert Intact(fs1, e1, fs2, e2, i); }
    }
  }

  lemma LastLands(fs: FS, e: ExpDesc, outer: set<nat>)
    requires StateOk(fs, e, outer)
    ensures Landing(fs.code, |fs.code|)
  {
  }

  /** What is unfinished is no value test. */
  lemma HolesNoTest(fs: FS, e: ExpDesc, outer: set<nat>)
    requires StateOk(fs, e, outer)
    ensures forall i :: 0 <= i < |fs.code| && (i in outer || i in Own(fs, e)) ==> !fs.code[i].TestSet?
  {
    hide WF;
  }

  /** A run through an operation: as before up to where the run stopped, and on from there. */
  lemma OpRun(fs: FS, e: ExpDesc, fs': FS, e': ExpDesc, outer: set<nat>, w: World, x: nat, m: Machine)
    requires StateOk(fs, e, outer) && Keeps(fs, e, fs', e', outer) && Entry(fs.code, x)
    ensures var (p, m1) := Run(w, fs.k, fs.code, outer + Own(fs, e), x, Wrote(fs.code, x, m));
      && (p == |fs.code| || p in outer || p in Own(fs, e)) && p <= |fs.code|
      && Run(w, fs'.k, fs'.code, outer + Own(fs', e'), x, Wrote(fs'.code, x, m))
         == Run(w, fs'.k, fs'.code, outer + Own(fs', e'), p, Wrote(fs'.code, p, m1))
  {
    hide Own;
    var h, h' := outer + Own(fs, e), outer + Own(fs', e');
    assert Patched(fs.code, h, fs'.code, h') by {
      forall i | 0 <= i < |fs.code| && i !in h ensures i < |fs'.code| && i !in h' && SameBut(fs.code[i], fs'.code[i]) {
        assert Intact(fs, e, fs', e', i);
      }
    }
    HolesNoTest(fs, e, outer);
    EntryStore(fs.code, |fs.k|, h, fs'.code, h', x, m);
    Resume(w, fs.k, fs.code, h, fs'.k, fs'.code, h', x, Wrote(fs.code, x, m));
  }

  /** The store on the way in is the same in patched code, unless the jump was a hole. */
  lemma EntryStore(code: seq<Instr>, nk: nat, h: set<nat>, code': seq<Instr>, h': set<nat>, x: nat, m: Machine)
    requires WF(code, nk, h) && Patched(code, h, code', h') && x <= |code|
    requires forall i :: 0 <= i < |code| && i in h ==> !code[i].TestSet?
    ensures if x in h && x < |code| then Wrote(code, x, m) == m else Wrote(code', x, m) == Wrote(code, x, m)
  {
    if x == |code| {
      EndStore(code, nk, h, code', h', m);
    } else if x > 0 && x - 1 !in h {
      WFAt(code, nk, h, x - 1);
      assert SameBut(code[x - 1], code'[x - 1]);
    }
  }

  /** dischargejpc. */
  function Discharge(fs: FS): FS
  {
    fs.(code := PatchList(fs.code, fs.jpc, |fs.code|, NO_REG, |fs.code|), jpc := [])
  }

  lemma DischargeOp(fs: FS, e: ExpDesc, outer: set<nat>)
    requires StateOk(fs, e, outer) && NoHoles(e.k)
    ensures Keeps(fs, e, Discharge(fs), e, outer)
  {
    hide WF, Entry, Intact;
    DischargeWF(fs, e, outer);
    forall i | 0 <= i < |fs.code| && i !in Own(fs, e)
      ensures Intact(fs, e, Discharge(fs), e, i)
    {
      DischargeIntact(fs, e, outer, i);
    }
    forall x | Entry(fs.code, x) ensures Entry(Discharge(fs).code, x) { DischargeEntry(fs, e, outer, x); }
  }

  lemma DischargeIntact(fs: FS, e: ExpDesc, outer: set<nat>, i: nat)
    requires StateOk(fs, e, outer) && i < |fs.code| && i !in Own(fs, e)
    ensures Intact(fs, e, Discharge(fs), e, i)
  {
    assert i !in outer ==> OkAt(fs.code, |fs.k|, outer + Own(fs, e), i);
  }

  lemma DischargeEntry(fs: FS, e: ExpDesc, outer: set<nat>, x: nat)
    requires StateOk(fs, e, outer) && Entry(fs.code, x)
    ensures Entry(Discharge(fs).code, x)
  {
    hide WF;
  }

  lemma DischargeWF(fs: FS, e: ExpDesc, outer: set<nat>)
    requires StateOk(fs, e, outer)
    ensures WF(Discharge(fs).code, |fs.k|, outer + Own(Discharge(fs), e))
  {
    var fs' := Discharge(fs);
    var h, h' := outer + Own(fs, e), outer + Own(fs', e);
    forall i | 0 <= i < |fs'.code| && i !in h' ensures OkAt(fs'.code, |fs.k|, h', i) { DischargeAt(fs, e, outer, i); }
  }

  lemma DischargeAt(fs: FS, e: ExpDesc, outer: set<nat>, i: nat)
    requires StateOk(fs, e, outer) && i < |fs.code| && i !in outer + Own(Discharge(fs), e)
    ensures OkAt(Discharge(fs).code, |fs.k|, outer + Own(Discharge(fs), e), i)
  {
    hide WF, KindOk;
    var h := outer + Own(fs, e);
    if i !in h { WFAt(fs.code, |fs.k|, h, i); }
    LastLands(fs, e, outer);
  }

  predicate NoHoles(k: Kind) { !k.VJmp? && !k.VReloc? }

  /** An instruction that goes on to the next. */
  predicate Plain(i: Instr, nk: nat)
  {
    i.Move? || i.GetUpval? || i.Not? || (i.LoadK? && i.bx < nk) || (i.LoadBool? && !i.skip)
  }

  /** One more instruction; it may be the value of the expression, with no register yet. */
  lemma AppendOp(fs: FS, e: ExpDesc, outer: set<nat>, i: Instr, k: Kind)
    requires StateOk(fs, e, outer) && fs.jpc == [] && NoHoles(e.k) && Plain(i, |fs.k|)
    requires if k.VReloc? then k.pc == |fs.code| && (i.Not? || i.GetUpval?)
             else KindOk(fs, e.(k := k), outer) && NoHoles(k)
    ensures Keeps(fs, e, fs.(code := fs.code + [i]), e.(k := k), outer)
  {
    hide WF, OkAt, Entry, Intact, KindOk;
    var fs', e' := fs.(code := fs.code + [i]), e.(k := k);
    forall j | 0 <= j < |fs'.code| && j !in outer + Own(fs', e')
      ensures OkAt(fs'.code, |fs.k|, outer + Own(fs', e'), j)
    {
      AppendAt(fs, e, outer, i, k, j);
    }
    WFIntro(fs', e', outer);
    AppendKind(fs, e, outer, i, k);
    forall j | 0 <= j < |fs.code| && j !in Own(fs, e)
      ensures Intact(fs, e, fs', e', j)
    {
      AppendIntact(fs, e, i, k, j);
    }
    forall x | Entry(fs.code, x) ensures Entry(fs'.code, x) { AppendEntry(fs, e, outer, i, k, x); }
  }

  lemma AppendAt(fs: FS, e: ExpDesc, outer: set<nat>, i: Instr, k: Kind, j: nat)
    requires StateOk(fs, e, outer) && NoHoles(e.k) && Plain(i, |fs.k|) && (k == VReloc(|fs.code|) || NoHoles(k))
    requires j <= |fs.code|
    requires j !in outer + Own(fs.(code := fs.code + [i]), e.(k := k))
    ensures var fs' := fs.(code := fs.code + [i]); OkAt(fs'.code, |fs.k|, outer + Own(fs', e.(k := k)), j)
  {
    hide WF, KindOk;
    if j < |fs.code| {
      WFAt(fs.code, |fs.k|, outer + Own(fs, e), j);
      LastLands(fs, e, outer);
    }
  }

  lemma AppendKind(fs: FS, e: ExpDesc, outer: set<nat>, i: Instr, k: Kind)
    requires StateOk(fs, e, outer) && fs.jpc == [] && NoHoles(e.k)
    requires if k.VReloc? then k.pc == |fs.code| && (i.Not? || i.GetUpval?)
             else KindOk(fs, e.(k := k), outer) && NoHoles(k)
    ensures KindOk(fs.(code := fs.code + [i]), e.(k := k), outer)
  {
    hide WF;
    assert (fs.code + [i])[..|fs.code|] == fs.code;
    assert outer + Own(fs, e) == outer + Elems(e.t) + Elems(e.f);
  }

  lemma AppendIntact(fs: FS, e: ExpDesc, i: Instr, k: Kind, j: nat)
    requires NoHoles(e.k) && (NoHoles(k) || k == VReloc(|fs.code|)) && j < |fs.code| && j !in Own(fs, e)
    ensures Intact(fs, e, fs.(code := fs.code + [i]), e.(k := k), j)
  {
  }

  lemma AppendEntry(fs: FS, e: ExpDesc, outer: set<nat>, i: Instr, k: Kind, x: nat)
    requires StateOk(fs, e, outer) && Entry(fs.code, x)
    ensures Entry(fs.code + [i], x)
  {
    hide WF, KindOk;
    LastLands(fs, e, outer);
  }

  /** A test and its jump: the jump joins one of the lists, or it is the expression. */
  ghost predicate TestAdds(fs: FS, e: ExpDesc, i: Instr, e': ExpDesc)
  {
    var p := |fs.code| + 1;
    match i
    case Cmp(_, _, l, r) => OperandOk(|fs.k|, l) && OperandOk(|fs.k|, r) && e' == e.(k := VJmp(p))
    case Test(_, _) => NoHoles(e'.k) && (e' == e.(k := e'.k, t := e.t + [p]) || e' == e.(k := e'.k, f := e.f + [p]))
    case TestSet(a, _, _) => a == NO_REG && NoHoles(e'.k)
      && (e' == e.(k := e'.k, t := e.t + [p]) || e' == e.(k := e'.k, f := e.f + [p]))
    case _ => false
  }

  lemma AppendTestOp(fs: FS, e: ExpDesc, outer: set<nat>, i: Instr, e': ExpDesc)
    requires StateOk(fs, e, outer) && fs.jpc == [] && NoHoles(e.k) && TestAdds(fs, e, i, e')
    requires NoHoles(e'.k) ==> KindOk(fs, e.(k := e'.k), outer)
    ensures Keeps(fs, e, fs.(code := fs.code + [i, Jmp(NO_JUMP)]), e', outer)
  {
    var fs' := fs.(code := fs.code + [i, Jmp(NO_JUMP)]);
    hide WF, Entry, Intact;
    forall j | 0 <= j < |fs'.code| && j !in outer + Own(fs', e')
      ensures OkAt(fs'.code, |fs.k|, outer + Own(fs', e'), j)
    {
      AppendTestAt(fs, e, outer, i, e', j);
    }
    WFIntro(fs', e', outer);
    forall j | 0 <= j < |fs.code| && j !in Own(fs, e)
      ensures Intact(fs, e, fs', e', j)
    {
      AppendTestIntact(fs, e, outer, i, e', j);
    }
    forall x | Entry(fs.code, x) ensures Entry(fs'.code, x) { AppendTestEntry(fs, e, outer, i, e', x); }
    DistinctAppend(e.t, [|fs.code| + 1]);
    DistinctAppend(e.f, [|fs.code| + 1]);
  }

  lemma WFIntro(fs: FS, e: ExpDesc, outer: set<nat>)
    requires forall j :: 0 <= j < |fs.code| && j !in outer + Own(fs, e) ==> OkAt(fs.code, |fs.k|, outer + Own(fs, e), j)
    requires Landing(fs.code, |fs.code|)
    ensures WF(fs.code, |fs.k|, outer + Own(fs, e))
  {
  }

  lemma AppendTestAt(fs: FS, e: ExpDesc, outer: set<nat>, i: Instr, e': ExpDesc, j: nat)
    requires StateOk(fs, e, outer) && fs.jpc == [] && NoHoles(e.k) && TestAdds(fs, e, i, e')
    requires j < |fs.code| + 2 && j !in outer + Own(fs.(code := fs.code + [i, Jmp(NO_JUMP)]), e')
    ensures var fs' := fs.(code := fs.code + [i, Jmp(NO_JUMP)]); OkAt(fs'.code, |fs.k|, outer + Own(fs', e'), j)
  {
    hide WF, KindOk;
    if j < |fs.code| { WFAt(fs.code, |fs.k|, outer + Own(fs, e), j); }
    LastLands(fs, e, outer);
  }

  lemma AppendTestIntact(fs: FS, e: ExpDesc, outer: set<nat>, i: Instr, e': ExpDesc, j: nat)
    requires StateOk(fs, e, outer) && fs.jpc == [] && NoHoles(e.k) && TestAdds(fs, e, i, e') && j < |fs.code|
    requires j !in Own(fs, e)
    ensures Intact(fs, e, fs.(code := fs.code + [i, Jmp(NO_JUMP)]), e', j)
  {
    hide WF;
  }

  lemma AppendTestEntry(fs: FS, e: ExpDesc, outer: set<nat>, i: Instr, e': ExpDesc, x: nat)
    requires StateOk(fs, e, outer) && fs.jpc == [] && NoHoles(e.k) && TestAdds(fs, e, i, e') && Entry(fs.code, x)
    ensures Entry(fs.code + [i, Jmp(NO_JUMP)], x)
  {
    hide WF;
  }

  /** The jump for a literal, together with the jumps that were to come here. */
  lemma JoinOp(fs: FS, e: ExpDesc, outer: set<nat>, e': ExpDesc)
    requires StateOk(fs, e, outer) && NoHoles(e.k)
    requires e' == e.(t := e.t + JumpList(fs)) || e' == e.(f := e.f + JumpList(fs))
    ensures Keeps(fs, e, Jump(fs), e', outer)
  {
    var fs' := Jump(fs);
    hide WF, Entry, Intact;
    forall j | 0 <= j < |fs'.code| && j !in outer + Own(fs', e')
      ensures OkAt(fs'.code, |fs.k|, outer + Own(fs', e'), j)
    {
      JoinAt(fs, e, outer, e', j);
    }
    LastLands(fs, e, outer);
    WFIntro(fs', e', outer);
    forall j | 0 <= j < |fs.code| && j !in Own(fs, e) ensures Intact(fs, e, fs', e', j) { JoinIntact(fs, e, e', j); }
    forall x | Entry(fs.code, x) ensures Entry(fs'.code, x) { JoinEntry(fs, e, outer, e', x); }
    DistinctAppend([|fs.code|], fs.jpc);
    DistinctAppend(e.t, JumpList(fs));
    DistinctAppend(e.f, JumpList(fs));
  }

  lemma JoinAt(fs: FS, e: ExpDesc, outer: set<nat>, e': ExpDesc, j: nat)
    requires StateOk(fs, e, outer) && NoHoles(e.k) && j <= |fs.code| && j !in outer + Own(Jump(fs), e')
    requires e' == e.(t := e.t + JumpList(fs)) || e' == e.(f := e.f + JumpList(fs))
    ensures OkAt(Jump(fs).code, |fs.k|, outer + Own(Jump(fs), e'), j)
  {
    assert j < |fs.code| && j !in outer + Own(fs, e);
    assert OkAt(fs.code, |fs.k|, outer + Own(fs, e), j);
    LastLands(fs, e, outer);
    hide WF;
  }

  lemma JoinIntact(fs: FS, e: ExpDesc, e': ExpDesc, j: nat)
    requires j < |fs.code| && j !in Own(fs, e)
    requires e' == e.(t := e.t + JumpList(fs)) || e' == e.(f := e.f + JumpList(fs))
    ensures Intact(fs, e, Jump(fs), e', j)
  {
  }

  lemma JoinEntry(fs: FS, e: ExpDesc, outer: set<nat>, e': ExpDesc, x: nat)
    requires StateOk(fs, e, outer) && Entry(fs.code, x)
    requires e' == e.(t := e.t + JumpList(fs)) || e' == e.(f := e.f + JumpList(fs))
    ensures Entry(Jump(fs).code, x)
  {
    LastLands(fs, e, outer);
    hide WF;
  }

  /** An instruction gets its register. */
  lemma SetAOp(fs: FS, e: ExpDesc, outer: set<nat>, reg: int)
    requires StateOk(fs, e, outer) && e.k.VReloc? && 0 <= reg < fs.free
    ensures Keeps(fs, e, fs.(code := fs.code[e.k.pc := SetA(fs.code[e.k.pc], reg)]), e.(k := VNonReloc(reg)), outer)
  {
    var fs', e' := fs.(code := fs.code[e.k.pc := SetA(fs.code[e.k.pc], reg)]), e.(k := VNonReloc(reg));
    hide WF, OkAt, Intact, Entry;
    forall j | 0 <= j < |fs'.code| && j !in outer + Own(fs', e')
      ensures OkAt(fs'.code, |fs.k|, outer + Own(fs', e'), j)
    {
      SetAAt(fs, e, outer, reg, j);
    }
    WFIntro(fs', e', outer);
    forall j | 0 <= j < |fs.code| && j !in Own(fs, e) ensures Intact(fs, e, fs', e', j) { SetAIntact(fs, e, reg, j); }
    forall x | Entry(fs.code, x) ensures Entry(fs'.code, x) { SetAEntry(fs, e, reg, x); }
  }

  lemma SetAAt(fs: FS, e: ExpDesc, outer: set<nat>, reg: int, j: nat)
    requires StateOk(fs, e, outer) && e.k.VReloc? && j < |fs.code|
    requires j !in outer + Own(fs.(code := fs.code[e.k.pc := SetA(fs.code[e.k.pc], reg)]), e.(k := VNonReloc(reg)))
    ensures var fs' := fs.(code := fs.code[e.k.pc := SetA(fs.code[e.k.pc], reg)]);
      OkAt(fs'.code, |fs.k|, outer + Own(fs', e.(k := VNonReloc(reg))), j)
  {
    hide WF;
    if j != e.k.pc {
      WFAt(fs.code, |fs.k|, outer + Own(fs, e), j);
      WFAt(fs.code[..e.k.pc], |fs.k|, outer + Elems(e.t) + Elems(e.f), j);
    }
  }

  lemma SetAIntact(fs: FS, e: ExpDesc, reg: int, j: nat)
    requires e.k.VReloc? && e.k.pc < |fs.code| && j < |fs.code| && j !in Own(fs, e)
    ensures Intact(fs, e, fs.(code := fs.code[e.k.pc := SetA(fs.code[e.k.pc], reg)]), e.(k := VNonReloc(reg)), j)
  {
  }

  lemma SetAEntry(fs: FS, e: ExpDesc, reg: int, x: nat)
    requires e.k.VReloc? && e.k.pc < |fs.code| && (fs.code[e.k.pc].Not? || fs.code[e.k.pc].GetUpval?)
    requires Entry(fs.code, x)
    ensures Entry(fs.code[e.k.pc := SetA(fs.code[e.k.pc], reg)], x)
  {
  }

  /** A negation at the end of the code turns into a test. */
  lemma NotTestOp(fs: FS, e: ExpDesc, outer: set<nat>, c: bool, e': ExpDesc)
    requires StateOk(fs, e, outer) && e.k.VReloc? && fs.code[e.k.pc].Not? && NoHoles(e'.k)
    requires KindOk(fs, e.(k := e'.k), outer)
    requires e' == e.(k := e'.k, t := e.t + [|fs.code|]) || e' == e.(k := e'.k, f := e.f + [|fs.code|])
    ensures Keeps(fs, e, fs.(code := fs.code[..e.k.pc] + [Test(fs.code[e.k.pc].b, c), Jmp(NO_JUMP)]), e', outer)
  {
    var fs' := fs.(code := fs.code[..e.k.pc] + [Test(fs.code[e.k.pc].b, c), Jmp(NO_JUMP)]);
    var fsp, ep := fs.(code := fs.code[..e.k.pc]), e.(k := e'.k);
    hide StateOk, Entry, Intact, KindOk;
    NotTestStart(fs, e, outer, e'.k);
    AppendTestOp(fsp, ep, outer, Test(fs.code[e.k.pc].b, c), e');
    forall j | 0 <= j < |fs.code| && j !in Own(fs, e)
      ensures Intact(fs, e, fs', e', j)
    {
      NotTestIntact(fs, e, outer, c, e', j);
    }
    forall x | Entry(fs.code, x) ensures Entry(fs'.code, x) { NotTestEntry(fs, e, outer, c, e', x); }
    NotTestHoles(fs, e, outer, c);
  }

  /** Without the negation, the code in front of it. */
  lemma NotTestStart(fs: FS, e: ExpDesc, outer: set<nat>, k: Kind)
    requires StateOk(fs, e, outer) && e.k.VReloc? && NoHoles(k) && KindOk(fs, e.(k := k), outer)
    ensures fs.jpc == [] && e.k.pc + 1 == |fs.code|
    ensures StateOk(fs.(code := fs.code[..e.k.pc]), e.(k := k), outer)
    ensures KindOk(fs.(code := fs.code[..e.k.pc]), e.(k := k), outer)
  {
    hide WF;
    var fsp, ep := fs.(code := fs.code[..e.k.pc]), e.(k := k);
    assert outer + Own(fsp, ep) == outer + Elems(e.t) + Elems(e.f);
  }

  lemma NotTestHoles(fs: FS, e: ExpDesc, outer: set<nat>, c: bool)
    requires StateOk(fs, e, outer) && e.k.VReloc? && fs.code[e.k.pc].Not?
    ensures forall i :: 0 <= i < |fs.code| && (i in outer || i in Own(fs, e)) ==>
      !(fs.code[..e.k.pc] + [Test(fs.code[e.k.pc].b, c), Jmp(NO_JUMP)])[i].TestSet?
  {
    hide WF;
  }

  lemma NotTestIntact(fs: FS, e: ExpDesc, outer: set<nat>, c: bool, e': ExpDesc, j: nat)
    requires StateOk(fs, e, outer) && e.k.VReloc? && fs.code[e.k.pc].Not? && NoHoles(e'.k) && j < |fs.code|
    requires j !in Own(fs, e)
    requires e' == e.(k := e'.k, t := e.t + [|fs.code|]) || e' == e.(k := e'.k, f := e.f + [|fs.code|])
    ensures Intact(fs, e, fs.(code := fs.code[..e.k.pc] + [Test(fs.code[e.k.pc].b, c), Jmp(NO_JUMP)]), e', j)
  {
    hide WF;
  }

  lemma NotTestEntry(fs: FS, e: ExpDesc, outer: set<nat>, c: bool, e': ExpDesc, x: nat)
    requires StateOk(fs, e, outer) && e.k.VReloc? && fs.code[e.k.pc].Not? && Entry(fs.code, x)
    requires e' == e.(k := e'.k, t := e.t + [|fs.code|]) || e' == e.(k := e'.k, f := e.f + [|fs.code|])
    ensures Entry(fs.code[..e.k.pc] + [Test(fs.code[e.k.pc].b, c), Jmp(NO_JUMP)], x)
  {
    hide WF;
  }

  /** The jumps of one list are to come here. */
  lemma HereOp(fs: FS, e: ExpDesc, outer: set<nat>, l: seq<nat>, e': ExpDesc)
    requires StateOk(fs, e, outer) && NoHoles(e.k) && NoHoles(e'.k) && KindOk(fs, e', outer)
    requires (l == e.t && e'.t == [] && e'.f == e.f) || (l == e.f && e'.f == [] && e'.t == e.t)
    ensures Keeps(fs, e, PatchToHere(fs, l), e', outer)
  {
    hide WF;
    var fs' := PatchToHere(fs, l);
    assert Own(fs', e') == Own(fs, e);
    DistinctAppend(fs.jpc, l);
    forall j | 0 <= j < |fs.code| && j !in Own(fs, e) ensures Intact(fs, e, fs', e', j) { }
  }

  /** A pending comparison, possibly inverted, becomes a jump of one of the lists. */
  lemma CommitOp(fs: FS, e: ExpDesc, outer: set<nat>, fs': FS, e': ExpDesc)
    requires StateOk(fs, e, outer) && e.k.VJmp? && (fs' == fs || fs' == InvertJump(fs, e.k.pc)) && NoHoles(e'.k)
    requires KindOk(fs, e.(k := e'.k), outer)
    requires e' == e.(k := e'.k, t := e.t + [e.k.pc]) || e' == e.(k := e'.k, f := e.f + [e.k.pc])
    ensures Keeps(fs, e, fs', e', outer)
  {
    hide WF, OkAt, Entry, Intact, KindOk;
    CommitKind(fs, e, outer, fs', e');
    forall j | 0 <= j < |fs'.code| && j !in outer + Own(fs', e')
      ensures OkAt(fs'.code, |fs.k|, outer + Own(fs', e'), j)
    {
      CommitAt(fs, e, outer, fs', e', j);
    }
    LastLands(fs, e, outer);
    WFIntro(fs', e', outer);
    forall j | 0 <= j < |fs.code| && j !in Own(fs, e)
      ensures Intact(fs, e, fs', e', j)
    {
      CommitIntact(fs, e, outer, fs', e', j);
    }
    forall x | Entry(fs.code, x) ensures Entry(fs'.code, x) { CommitEntry(fs, e, outer, fs', e', x); }
    DistinctAppend(e.t, [e.k.pc]);
    DistinctAppend(e.f, [e.k.pc]);
  }

  lemma CommitKind(fs: FS, e: ExpDesc, outer: set<nat>, fs': FS, e': ExpDesc)
    requires KindOk(fs, e, outer) && e.k.VJmp? && (fs' == fs || fs' == InvertJump(fs, e.k.pc)) && NoHoles(e'.k)
    requires KindOk(fs, e.(k := e'.k), outer)
    ensures KindOk(fs', e', outer) && 0 < e.k.pc && e.k.pc + 1 == |fs.code| && e.k.pc !in e.t && e.k.pc !in e.f
    ensures e.k.pc !in outer && fs.jpc == []
    ensures fs'.code[e.k.pc] == fs.code[e.k.pc] && fs.code[e.k.pc].Jmp? && fs'.code[e.k.pc - 1].Cmp?
    ensures fs.code[e.k.pc - 1].Cmp?
    ensures |fs'.code| == |fs.code| && forall i :: 0 <= i < |fs.code| && i != e.k.pc - 1 ==> fs'.code[i] == fs.code[i]
  {
  }

  lemma CommitAt(fs: FS, e: ExpDesc, outer: set<nat>, fs': FS, e': ExpDesc, j: nat)
    requires StateOk(fs, e, outer) && e.k.VJmp? && (fs' == fs || fs' == InvertJump(fs, e.k.pc)) && NoHoles(e'.k)
    requires e' == e.(k := e'.k, t := e.t + [e.k.pc]) || e' == e.(k := e'.k, f := e.f + [e.k.pc])
    requires j < |fs.code| && j !in outer + Own(fs', e')
    ensures OkAt(fs'.code, |fs.k|, outer + Own(fs', e'), j)
  {
    hide WF;
    if j + 1 < e.k.pc { WFAt(fs.code, |fs.k|, outer + Own(fs, e), j); }
  }

  lemma CommitIntact(fs: FS, e: ExpDesc, outer: set<nat>, fs': FS, e': ExpDesc, j: nat)
    requires StateOk(fs, e, outer) && e.k.VJmp? && (fs' == fs || fs' == InvertJump(fs, e.k.pc)) && NoHoles(e'.k)
    requires j < |fs.code| && j !in Own(fs, e)
    requires e' == e.(k := e'.k, t := e.t + [e.k.pc]) || e' == e.(k := e'.k, f := e.f + [e.k.pc])
    ensures Intact(fs, e, fs', e', j)
  {
    hide WF;
  }

  lemma CommitEntry(fs: FS, e: ExpDesc, outer: set<nat>, fs': FS, e': ExpDesc, x: nat)
    requires StateOk(fs, e, outer) && e.k.VJmp? && (fs' == fs || fs' == InvertJump(fs, e.k.pc)) && Entry(fs.code, x)
    requires e' == e.(k := e'.k, t := e.t + [e.k.pc]) || e' == e.(k := e'.k, f := e.f + [e.k.pc])
    ensures Entry(fs'.code, x)
  {
    hide WF;
  }

  lemma InvertOp(fs: FS, e: ExpDesc, outer: set<nat>)
    requires StateOk(fs, e, outer) && e.k.VJmp?
    ensures Keeps(fs, e, InvertJump(fs, e.k.pc), e, outer)
  {
    hide WF, OkAt, Entry, Intact;
    var fs' := InvertJump(fs, e.k.pc);
    assert Own(fs', e) == Own(fs, e);
    forall j | 0 <= j < |fs'.code| && j !in outer + Own(fs', e) ensures OkAt(fs'.code, |fs.k|, outer + Own(fs', e), j) {
      InvertAt(fs, e, outer, j);
    }
    WFIntro(fs', e, outer);
    forall j | 0 <= j < |fs.code| && j !in Own(fs, e) ensures Intact(fs, e, fs', e, j) { InvertIntact(fs, e, j); }
    forall x | Entry(fs.code, x) ensures Entry(fs'.code, x) { InvertEntry(fs, e, outer, x); }
  }

  lemma InvertAt(fs: FS, e: ExpDesc, outer: set<nat>, j: nat)
    requires StateOk(fs, e, outer) && e.k.VJmp? && j < |fs.code| && j !in outer + Own(fs, e)
    ensures OkAt(InvertJump(fs, e.k.pc).code, |fs.k|, outer + Own(fs, e), j)
  {
    hide WF;
    WFAt(fs.code, |fs.k|, outer + Own(fs, e), j);
  }

  lemma InvertIntact(fs: FS, e: ExpDesc, j: nat)
    requires e.k.VJmp? && 0 < e.k.pc < |fs.code| && fs.code[e.k.pc - 1].Cmp? && j < |fs.code| && j !in Own(fs, e)
    ensures Intact(fs, e, InvertJump(fs, e.k.pc), e, j)
  {
  }

  lemma InvertEntry(fs: FS, e: ExpDesc, outer: set<nat>, x: nat)
    requires StateOk(fs, e, outer) && e.k.VJmp? && Entry(fs.code, x)
    ensures Entry(InvertJump(fs, e.k.pc).code, x)
  {
    hide WF;
  }

  /** The lists change places and lose their values. */
  lemma SwapOp(fs: FS, e: ExpDesc, outer: set<nat>, e': ExpDesc)
    requires StateOk(fs, e, outer) && e' == ExpDesc(e'.k, e.f, e.t) && KindHoles(e'.k) == KindHoles(e.k)
    requires KindOk(fs, e.(k := e'.k), outer)
    ensures Keeps(fs, e, fs.(code := RemoveValues(RemoveValues(fs.code, e.t), e.f)), e', outer)
  {
    var fs' := fs.(code := RemoveValues(RemoveValues(fs.code, e.t), e.f));
    hide WF, OkAt, Entry, Intact, KindOk, KindHoles;
    HolesNoTest(fs, e, outer);
    forall j | 0 <= j < |fs'.code| && j !in outer + Own(fs', e')
      ensures OkAt(fs'.code, |fs.k|, outer + Own(fs', e'), j)
    {
      SwapAt(fs, e, outer, e', j);
    }
    LastLands(fs, e, outer);
    WFIntro(fs', e', outer);
    forall j | 0 <= j < |fs.code| && j !in Own(fs, e)
      ensures Intact(fs, e, fs', e', j)
    {
      SwapIntact(fs, e, outer, e', j);
    }
    forall x | Entry(fs.code, x) ensures Entry(fs'.code, x) { SwapEntry(fs, e, outer, e', x); }
    SwapKind(fs, e, outer, e');
  }

  lemma SwapAt(fs: FS, e: ExpDesc, outer: set<nat>, e': ExpDesc, j: nat)
    requires StateOk(fs, e, outer) && e' == ExpDesc(e'.k, e.f, e.t) && KindHoles(e'.k) == KindHoles(e.k)
    requires j < |fs.code|
    requires var fs' := fs.(code := RemoveValues(RemoveValues(fs.code, e.t), e.f)); j !in outer + Own(fs', e')
    ensures var fs' := fs.(code := RemoveValues(RemoveValues(fs.code, e.t), e.f));
      OkAt(fs'.code, |fs.k|, outer + Own(fs', e'), j)
  {
    hide WF, KindOk, KindHoles, RemoveValues, OkAt;
    assert outer + Own(fs.(code := RemoveValues(RemoveValues(fs.code, e.t), e.f)), e') == outer + Own(fs, e);
    WFAt(fs.code, |fs.k|, outer + Own(fs, e), j);
    UnvaluedAt(fs.code, RemoveValues(RemoveValues(fs.code, e.t), e.f), |fs.k|, outer + Own(fs, e), j);
  }

  /** Value jumps that lose their values stay what they were otherwise. */
  lemma UnvaluedAt(code: seq<Instr>, code': seq<Instr>, nk: nat, holes: set<nat>, j: nat)
    requires |code'| == |code| && j < |code| && OkAt(code, nk, holes, j)
    requires forall i :: 0 <= i < |code| ==>
      code'[i] == code[i] || (code[i].TestSet? && code'[i] == Test(code[i].b, code[i].c))
    ensures OkAt(code', nk, holes, j)
  {
  }

  lemma SwapIntact(fs: FS, e: ExpDesc, outer: set<nat>, e': ExpDesc, j: nat)
    requires StateOk(fs, e, outer) && e' == ExpDesc(e'.k, e.f, e.t) && KindHoles(e'.k) == KindHoles(e.k)
    requires j < |fs.code| && j !in Own(fs, e)
    ensures Intact(fs, e, fs.(code := RemoveValues(RemoveValues(fs.code, e.t), e.f)), e', j)
  {
    hide WF, KindOk, KindHoles;
    if j !in outer { WFAt(fs.code, |fs.k|, outer + Own(fs, e), j); }
  }

  lemma SwapEntry(fs: FS, e: ExpDesc, outer: set<nat>, e': ExpDesc, x: nat)
    requires StateOk(fs, e, outer) && e' == ExpDesc(e'.k, e.f, e.t) && Entry(fs.code, x)
    ensures Entry(RemoveValues(RemoveValues(fs.code, e.t), e.f), x)
  {
    hide WF, KindOk;
  }

  lemma SwapKind(fs: FS, e: ExpDesc, outer: set<nat>, e': ExpDesc)
    requires StateOk(fs, e, outer) && e' == ExpDesc(e'.k, e.f, e.t) && KindHoles(e'.k) == KindHoles(e.k)
    requires KindOk(fs, e.(k := e'.k), outer)
    ensures KindOk(fs.(code := RemoveValues(RemoveValues(fs.code, e.t), e.f)), e', outer)
  {
    hide WF;
    if e'.k.VReloc? {
      assert outer + Elems(e.t) + Elems(e.f) == outer + Elems(e'.t) + Elems(e'.f);
      UnvaluedPrefix(fs.code, RemoveValues(RemoveValues(fs.code, e.t), e.f), |fs.k|, outer + Elems(e.t) + Elems(e.f),
        e'.k.pc);
    }
  }

  lemma UnvaluedPrefix(code: seq<Instr>, code': seq<Instr>, nk: nat, holes: set<nat>, q: nat)
    requires |code'| == |code| && q <= |code| && WF(code[..q], nk, holes)
    requires forall i :: 0 <= i < |code| ==>
      code'[i] == code[i] || (code[i].TestSet? && code'[i] == Test(code[i].b, code[i].c))
    ensures WF(code'[..q], nk, holes)
  {
    hide OkAt;
    forall j | 0 <= j < q && j !in holes
      ensures OkAt(code'[..q], nk, holes, j)
    {
      UnvaluedAt(code[..q], code'[..q], nk, holes, j);
    }
  }
}

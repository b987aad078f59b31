/** Values on their way to registers: dischargevars, discharge2reg and what they need. */
module CodeRegs {
  import opened LuaVm
  import opened CodeGen
  import opened CodeShape
  import opened CodeMeaning

  /** An operation answers the same query, and keeps what was finished. */
  ghost predicate Fine(q: Query, fs: FS, e: ExpDesc, fs': FS, e': ExpDesc, outer: set<nat>)
  {
    Good(q, fs', e', outer) && Keeps(fs, e, fs', e', outer)
  }

  lemma FineTrans(q: Query, fs: FS, e: ExpDesc, fs1: FS, e1: ExpDesc, fs2: FS, e2: ExpDesc, outer: set<nat>)
    requires Good(q, fs, e, outer) && Fine(q, fs, e, fs1, e1, outer) && Fine(q, fs1, e1, fs2, e2, outer)
    ensures Fine(q, fs, e, fs2, e2, outer)
  {
    hide Keeps, StateOk, Means;
    KeepsTrans(fs, e, fs1, e1, fs2, e2, outer);
  }

  lemma KeepsSelf(fs: FS, e: ExpDesc, fs': FS, e': ExpDesc, outer: set<nat>)
    requires StateOk(fs, e, outer) && StateOk(fs', e', outer) && fs'.code == fs.code && fs.k <= fs'.k
    requires fs'.nact == fs.nact
    requires Own(fs', e') == Own(fs, e) && e'.t == e.t && e'.f == e.f
    ensures Keeps(fs, e, fs', e', outer)
  {
    hide WF, KindOk, Own;
    forall j | 0 <= j < |fs.code| && j !in Own(fs, e) ensures Intact(fs, e, fs', e', j) { }
    HolesNoTest(fs, e, outer);
  }

  /** The kind or the constants change, the code does not. */
  lemma SameCode(q: Query, fs: FS, e: ExpDesc, fs': FS, e': ExpDesc, outer: set<nat>)
    requires Good(q, fs, e, outer) && StateOk(fs', e', outer) && fs'.code == fs.code && fs.k <= fs'.k
    requires fs'.nact == fs.nact
    requires Own(fs', e') == Own(fs, e) && e'.t == e.t && e'.f == e.f && fs'.jpc == fs.jpc
    requires forall p :: AtEnd(fs, e.k, p) ==> AtEnd(fs', e'.k, p)
    requires forall m :: Holds(q, fs, e.k, m) ==> Holds(q, fs', e'.k, m)
    ensures Fine(q, fs, e, fs', e', outer)
  {
    hide StateOk, Own, Run, AtEnd, Holds;
    KeepsSelf(fs, e, fs', e', outer);
    var p, m := GoesOn(q, fs, e, fs', e', outer);
    Stops(q, fs, e, fs', e', outer, p, m);
  }

  lemma Stops(q: Query, fs: FS, e: ExpDesc, fs': FS, e': ExpDesc, outer: set<nat>, p: nat, m: Machine)
    requires StateOk(fs, e, outer) && StateOk(fs', e', outer) && fs'.code == fs.code && Own(fs', e') == Own(fs, e)
    requires (p in e.t + e.f || AtEnd(fs, e.k, p))
    ensures p !in e.t + e.f ==> Runs(q, fs', outer + Own(fs', e'), p, Wrote(fs'.code, p, m)) == (p, m)
  {
    if p !in e.t + e.f {
      assert p == |fs.code| || p in Own(fs, e) by { hide WF; }
      if p in KindHoles(e.k) { HoleStore(fs, e, outer, p, m); } else { NoStore(fs, e, outer, p, m); }
    }
  }

  lemma HoleStore(fs: FS, e: ExpDesc, outer: set<nat>, p: nat, m: Machine)
    requires StateOk(fs, e, outer) && AtEnd(fs, e.k, p) && p in KindHoles(e.k)
    ensures Wrote(fs.code, p, m) == m
  {
    if HasValue(fs.code, p) {
      var h := outer + Own(fs, e);
      HolesNoTest(fs, e, outer);
      assert OkAt(fs.code, |fs.k|, h, p - 1);
    }
  }

  lemma LocalFine(q: Query, fs: FS, e: ExpDesc, outer: set<nat>)
    requires Good(q, fs, e, outer) && e.k.VLocal?
    ensures Fine(q, fs, e, fs, e.(k := VNonReloc(e.k.r)), outer)
  {
    var e' := e.(k := VNonReloc(e.k.r));
    hide WF;
    assert Own(fs, e') == Own(fs, e);
    SameCode(q, fs, e, fs, e', outer);
  }

  /** An instruction whose register is still to come. */
  lemma RelocFine(q: Query, fs: FS, e: ExpDesc, outer: set<nat>)
    requires Good(q, fs, e, outer) && fs.jpc == [] && e.k.VUpval?
    ensures Fine(q, fs, e, fs.(code := fs.code + [GetUpval(0, e.k.u)]), e.(k := VReloc(|fs.code|)), outer)
  {
    hide StateOk, Own, Run, Entry, Exit;
    var i := GetUpval(0, e.k.u);
    var fs', e' := fs.(code := fs.code + [i]), e.(k := VReloc(|fs.code|));
    AppendOp(fs, e, outer, i, VReloc(|fs.code|));
    Listed(fs, e, outer);
    var p, m := GoesOn(q, fs, e, fs', e', outer);
    if p in e.t + e.f {
      ExitByJump(q, fs, e, fs', e', p, m);
    } else {
      ExitHolds(q, fs, e, p, m);
      HoleStops(q, fs', e', outer, p, m);
      ExitReloc(q, fs', e', p, m);
    }
  }

  lemma HoleStops(q: Query, fs: FS, e: ExpDesc, outer: set<nat>, p: nat, m: Machine)
    requires StateOk(fs, e, outer) && e.k == VReloc(p)
    ensures Runs(q, fs, outer + Own(fs, e), p, Wrote(fs.code, p, m)) == (p, m)
  {
    HoleStore(fs, e, outer, p, m);
  }

  lemma ExitReloc(q: Query, fs: FS, e: ExpDesc, p: nat, m: Machine)
    requires SameBelow(q.m, m, q.base) && e.k == VReloc(p) && Holds(q, fs, e.k, m) && p !in e.t + e.f
    requires q.way.Arrives?
    ensures Exit(q, fs, e, p, m)
  {
  }

  lemma DischargeVarsFine(q: Query, fs: FS, e: ExpDesc, outer: set<nat>)
    requires Good(q, fs, e, outer)
    ensures var (fs', e') := DischargeVars(fs, e);
      Fine(q, fs, e, fs', e', outer) && fs'.free == fs.free && !e'.k.VLocal? && !e'.k.VUpval?
  {
    hide Good, Keeps;
    if e.k.VLocal? {
      LocalFine(q, fs, e, outer);
    } else if e.k.VUpval? {
      DischargeGood(q, fs, e, outer);
      RelocFine(q, Discharge(fs), e, outer);
      FineTrans(q, fs, e, Discharge(fs), e, Emit(fs, GetUpval(0, e.k.u)), e.(k := VReloc(|fs.code|)), outer);
    } else {
      FineSelf(q, fs, e, outer);
    }
  }

  lemma FineSelf(q: Query, fs: FS, e: ExpDesc, outer: set<nat>)
    requires Good(q, fs, e, outer)
    ensures Fine(q, fs, e, fs, e, outer)
  {
    hide StateOk;
    KeepsSelf(fs, e, fs, e, outer);
  }

  lemma AddKFine(q: Query, fs: FS, e: ExpDesc, outer: set<nat>, v: Value)
    requires Good(q, fs, e, outer)
    ensures Fine(q, fs, e, AddK(fs, v), e, outer) && KIndex(fs, v) < |AddK(fs, v).k|
    ensures AddK(fs, v).k[KIndex(fs, v)] == v
  {
    AddKHolds(q, fs, e, outer, v);
    hide StateOk, Means, Keeps, Holds;
    AddKState(fs, e, outer, v);
    SameCode(q, fs, e, AddK(fs, v), e, outer);
  }

  lemma AddKHolds(q: Query, fs: FS, e: ExpDesc, outer: set<nat>, v: Value)
    requires KindOk(fs, e, outer)
    ensures forall m :: Holds(q, fs, e.k, m) ==> Holds(q, AddK(fs, v), e.k, m)
  {
  }

  lemma AddKState(fs: FS, e: ExpDesc, outer: set<nat>, v: Value)
    requires StateOk(fs, e, outer)
    ensures StateOk(AddK(fs, v), e, outer)
  {
    var fs' := AddK(fs, v);
    var h := outer + Own(fs, e);
    assert Own(fs', e) == Own(fs, e);
    assert WF(fs'.code, |fs'.k|, h) by { MoreConstants(fs.code, |fs.k|, |fs'.k|, h); }
    if e.k.VReloc? { MoreConstants(fs.code[..e.k.pc], |fs.k|, |fs'.k|, outer + Elems(e.t) + Elems(e.f)); }
    hide WF;
  }

  lemma MoreConstants(code: seq<Instr>, nk: nat, nk': nat, h: set<nat>)
    requires WF(code, nk, h) && nk <= nk'
    ensures WF(code, nk', h)
  {
    forall i | 0 <= i < |code| && i !in h ensures OkAt(code, nk', h, i) { assert OkAt(code, nk, h, i); }
  }

  /** The value of an expression that is not a pending comparison goes to a register. */
  lemma ToRegFine(q: Query, fs: FS, e: ExpDesc, outer: set<nat>, reg: int)
    requires Good(q, fs, e, outer) && !e.k.VLocal? && !e.k.VUpval? && !e.k.VJmp? && q.base <= reg < fs.free && 0 <= reg
    ensures Fine(q, fs, e, ToReg(fs, e.k, reg), e.(k := VNonReloc(reg)), outer) && ToReg(fs, e.k, reg).free == fs.free
  {
    hide Good, Keeps;
    match e.k
    case VReloc(pc) => SetAFine(q, fs, e, outer, reg);
    case VKNum(v) =>
      AddKFine(q, fs, e, outer, v);
      LoadFine(q, AddK(fs, v), e, outer, LoadK(reg, KIndex(fs, v)), reg);
      FineTrans(q, fs, e, AddK(fs, v), e, ToReg(fs, e.k, reg), e.(k := VNonReloc(reg)), outer);
    case VK(i) =>
      assert i < |fs.k| by { KIsIndex(q, fs, e, outer); }
      LoadFine(q, fs, e, outer, LoadK(reg, i), reg);
    case VTrue => LoadFine(q, fs, e, outer, LoadBool(reg, true, false), reg);
    case VFalse => LoadFine(q, fs, e, outer, LoadBool(reg, false, false), reg);
    case VNonReloc(r) =>
      if r == reg { FineSelf(q, fs, e, outer); } else { LoadFine(q, fs, e, outer, Move(reg, r), reg); }
  }

  lemma KIsIndex(q: Query, fs: FS, e: ExpDesc, outer: set<nat>)
    requires Good(q, fs, e, outer) && e.k.VK?
    ensures e.k.i < |fs.k|
  {
  }

  lemma LoadFine(q: Query, fs: FS, e: ExpDesc, outer: set<nat>, i: Instr, reg: int)
    requires Good(q, fs, e, outer) && NoHoles(e.k) && Plain(i, |fs.k|) && Loads(fs, e.k, i, reg)
    requires q.base <= reg < fs.free && 0 <= reg
    ensures Fine(q, fs, e, Emit(fs, i), e.(k := VNonReloc(reg)), outer)
  {
    hide Good, Keeps;
    DischargeGood(q, fs, e, outer);
    AppendGood(q, Discharge(fs), e, outer, i, reg);
    FineTrans(q, fs, e, Discharge(fs), e, Emit(fs, i), e.(k := VNonReloc(reg)), outer);
  }

  lemma SetAFine(q: Query, fs: FS, e: ExpDesc, outer: set<nat>, reg: int)
    requires Good(q, fs, e, outer) && e.k.VReloc? && q.base <= reg < fs.free && 0 <= reg
    ensures Fine(q, fs, e, ToReg(fs, e.k, reg), e.(k := VNonReloc(reg)), outer)
  {
    hide WF, Own, Run, Entry, Exit;
    var fs', e' := ToReg(fs, e.k, reg), e.(k := VNonReloc(reg));
    SetAOp(fs, e, outer, reg);
    Listed(fs, e, outer);
    var p, m := GoesOn(q, fs, e, fs', e', outer);
    if p in e.t + e.f {
      ExitByJump(q, fs, e, fs', e', p, m);
    } else {
      ExitHolds(q, fs, e, p, m);
      SetARun(q, fs, e, outer, reg, m);
      ExitLoaded(q, fs', e', p + 1, m, reg);
    }
  }

  lemma SetARun(q: Query, fs: FS, e: ExpDesc, outer: set<nat>, reg: int, m: Machine)
    requires StateOk(fs, e, outer) && e.k.VReloc? && Holds(q, fs, e.k, m)
    ensures var fs', e' := ToReg(fs, e.k, reg), e.(k := VNonReloc(reg));
      Runs(q, fs', outer + Own(fs', e'), e.k.pc, Wrote(fs'.code, e.k.pc, m)) == (|fs.code|, Put(m, reg, q.v))
  {
    var fs', e' := ToReg(fs, e.k, reg), e.(k := VNonReloc(reg));
    HoleStore(fs, e, outer, e.k.pc, m);
    hide WF;
    assert e.k.pc !in outer + Own(fs', e');
    StepRun(q, fs', outer + Own(fs', e'), e.k.pc, m);
  }

  lemma Discharge2RegFine(q: Query, fs: FS, e: ExpDesc, outer: set<nat>, reg: int)
    requires Good(q, fs, e, outer) && !e.k.VJmp? && q.base <= reg < fs.free && 0 <= reg
    ensures var (fs', e') := Discharge2Reg(fs, e, reg);
      Fine(q, fs, e, fs', e', outer) && fs'.free == fs.free && e' == e.(k := VNonReloc(reg))
  {
    hide Good, Keeps, ToReg, KindOk;
    var (fs1, e1) := DischargeVars(fs, e);
    DischargeVarsFine(q, fs, e, outer);
    ToRegFine(q, fs1, e1, outer, reg);
    FineTrans(q, fs, e, fs1, e1, ToReg(fs1, e1.k, reg), e1.(k := VNonReloc(reg)), outer);
  }
}

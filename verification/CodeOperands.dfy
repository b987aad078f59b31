/** The operands of comparisons fit their fields: nine bits, of which one says that it is a constant (lopcodes.h). */
module CodeOperands {
  import opened Base
  import opened LuaVm
  import opened CodeGen

  predicate OperandFits(o: RK) { o.K? ==> o.i < 256 }

  predicate InstrFits(i: Instr) { i.Cmp? ==> OperandFits(i.left) && OperandFits(i.right) }

  predicate Fits(code: seq<Instr>) { forall i :: 0 <= i < |code| ==> InstrFits(code[i]) }

  lemma PatchFits(code: seq<Instr>, list: seq<nat>, vtarget: int, reg: int, dtarget: int)
    requires Fits(code)
    ensures Fits(PatchList(code, list, vtarget, reg, dtarget))
  {
  }

  lemma EmitFits(fs: FS, i: Instr)
    requires Fits(fs.code) && InstrFits(i)
    ensures Fits(Emit(fs, i).code)
  {
    PatchFits(fs.code, fs.jpc, |fs.code|, NO_REG, |fs.code|);
  }

  lemma DischargeFits(fs: FS, e: ExpDesc, reg: int)
    requires Fits(fs.code)
    ensures Fits(DischargeVars(fs, e).0.code) && Fits(Discharge2Reg(fs, e, reg).0.code)
  {
    hide Emit, Fits;
    if e.k.VUpval? { EmitFits(fs, GetUpval(0, e.k.u)); }
    var (fs1, e1) := DischargeVars(fs, e);
    ToRegFits(fs1, e1.k, reg);
  }

  lemma ToRegFits(fs: FS, k: Kind, reg: int)
    requires Fits(fs.code)
    ensures Fits(ToReg(fs, k, reg).code)
  {
    hide Emit;
    match k
    case VTrue => EmitFits(fs, LoadBool(reg, true, false));
    case VFalse => EmitFits(fs, LoadBool(reg, false, false));
    case VK(i) => EmitFits(fs, LoadK(reg, i));
    case VKNum(v) => EmitFits(AddK(fs, v), LoadK(reg, KIndex(fs, v)));
    case VReloc(pc) =>
    case VNonReloc(r) => EmitFits(fs, Move(reg, r));
    case _ =>
  }

  lemma Exp2RegFits(fs: FS, e: ExpDesc, reg: int)
    requires Fits(fs.code)
    ensures Fits(Exp2Reg(fs, e, reg).code)
  {
    hide Fits, PatchList, Discharge2Reg, LoadValues;
    DischargeFits(fs, e, reg);
    var (fs1, e1) := Discharge2Reg(fs, e, reg);
    var t := if e1.k.VJmp? then e1.t + [e1.k.pc] else e1.t;
    var need := NeedValue(fs1.code, t) || NeedValue(fs1.code, e1.f);
    LoadsFit(fs1, !e1.k.VJmp?, reg);
    var fs2 := if need then LoadValues(fs1, !e1.k.VJmp?, reg) else fs1;
    var final := |fs2.code|;
    var pt, pf := if need then final - 1 else NO_JUMP, if need then final - 2 else NO_JUMP;
    PatchFits(fs2.code, e1.f, final, reg, pf);
    PatchFits(PatchList(fs2.code, e1.f, final, reg, pf), t, final, reg, pt);
  }

  lemma JumpFits(fs: FS)
    requires Fits(fs.code)
    ensures Fits(Jump(fs).code)
  {
  }

  lemma LoadsFit(fs: FS, jumps: bool, reg: int)
    requires Fits(fs.code)
    ensures Fits(LoadValues(fs, jumps, reg).code)
  {
    hide Fits, Emit, Jump;
    JumpFits(fs);
    var fs1 := if jumps then Jump(fs) else fs;
    EmitFits(fs1, LoadBool(reg, false, true));
    EmitFits(Emit(fs1, LoadBool(reg, false, true)), LoadBool(reg, true, false));
  }

  lemma AnyRegFits(fs: FS, e: ExpDesc)
    requires Fits(fs.code)
    ensures Fits(Exp2NextReg(fs, e).0.code) && Fits(Exp2AnyReg(fs, e).0.code) && Fits(Exp2Val(fs, e).0.code)
  {
    hide Fits, Exp2Reg, DischargeVars;
    DischargeFits(fs, e, 0);
    var (fs1, e1) := DischargeVars(fs, e);
    NextRegFits(fs, e);
    NextRegFits(fs1, e1);
    if e1.k.VNonReloc? { Exp2RegFits(fs1, e1, e1.k.r); }
  }

  lemma NextRegFits(fs: FS, e: ExpDesc)
    requires Fits(fs.code)
    ensures Fits(Exp2NextReg(fs, e).0.code)
  {
    hide Fits, Exp2Reg, DischargeVars;
    DischargeFits(fs, e, 0);
    var (fs1, e1) := DischargeVars(fs, e);
    var fs2 := Reserve(FreeExp(fs1, e1.k));
    Exp2RegFits(fs2, e1, fs2.free - 1);
  }

  lemma Exp2RKFits(fs: FS, e: ExpDesc)
    requires Fits(fs.code)
    ensures var (fs', e') := Exp2RK(fs, e); Fits(fs'.code) && (e'.k.VK? ==> e'.k.i < 256)
  {
    hide Fits, Exp2Val, Exp2AnyReg;
    AnyRegFits(fs, e);
    var (fs1, e1) := Exp2Val(fs, e);
    AnyRegFits(fs1, e1);
    AnyRegKind(fs1, e1);
    if e1.k.VKNum? || e1.k.VTrue? || e1.k.VFalse? { IndexFits(fs1, ConstValue(e1.k)); }
  }

  lemma AnyRegKind(fs: FS, e: ExpDesc)
    ensures Exp2AnyReg(fs, e).1.k.VNonReloc?
  {
  }

  lemma IndexFits(fs: FS, v: Value)
    ensures KIndex(fs, v) <= |fs.k| && (v in fs.k ==> KIndex(fs, v) < |fs.k|)
  {
  }

  lemma CondJumpFits(fs: FS, i: Instr)
    requires Fits(fs.code) && InstrFits(i)
    ensures Fits(CondJump(fs, i).code)
  {
    hide Fits, Emit, Jump;
    EmitFits(fs, i);
    JumpFits(Emit(fs, i));
  }

  lemma InvertFits(fs: FS, pc: nat)
    requires Fits(fs.code)
    ensures Fits(InvertJump(fs, pc).code)
  {
  }

  lemma JumpOnCondFits(fs: FS, e: ExpDesc, cond: bool)
    requires Fits(fs.code)
    ensures Fits(JumpOnCond(fs, e, cond).code)
  {
    hide CondJump, Discharge2Reg;
    DischargeFits(Reserve(fs), e, fs.free);
    if e.k.VReloc? && e.k.pc + 1 == |fs.code| && fs.code[e.k.pc].Not? {
      CondJumpFits(fs.(code := fs.code[..e.k.pc]), Test(fs.code[e.k.pc].b, !cond));
    } else {
      var (fs1, e1) := Discharge2AnyReg(fs, e);
      if e1.k.VNonReloc? { CondJumpFits(FreeExp(fs1, e1.k), TestSet(NO_REG, e1.k.r, cond)); }
    }
  }

  lemma GoIfFits(fs: FS, e: ExpDesc)
    requires Fits(fs.code)
    ensures Fits(GoIfTrue(fs, e).0.code) && Fits(GoIfFalse(fs, e).0.code)
  {
    hide Fits, DischargeVars, JumpOnCond, InvertJump, Jump;
    DischargeFits(fs, e, 0);
    var (fs1, e1) := DischargeVars(fs, e);
    JumpFits(fs1);
    JumpOnCondFits(fs1, e1, false);
    JumpOnCondFits(fs1, e1, true);
    if e1.k.VJmp? { InvertFits(fs1, e1.k.pc); }
  }

  lemma RemoveFits(code: seq<Instr>, list: seq<nat>)
    requires Fits(code)
    ensures Fits(RemoveValues(code, list))
  {
  }

  lemma CodeNotFits(fs: FS, e: ExpDesc)
    requires Fits(fs.code)
    ensures Fits(CodeNot(fs, e).0.code)
  {
    hide Fits, DischargeVars, InvertJump, Discharge2Reg, Emit, RemoveValues;
    DischargeFits(fs, e, 0);
    var (fs1, e1) := DischargeVars(fs, e);
    if e1.k.VJmp? { InvertFits(fs1, e1.k.pc); }
    DischargeFits(Reserve(fs1), e1, fs1.free);
    var (fsr, er) := Discharge2AnyReg(fs1, e1);
    EmitFits(FreeExp(fsr, er.k), Not(0, if er.k.VNonReloc? then er.k.r else 0));
    forall code | Fits(code) ensures Fits(RemoveValues(RemoveValues(code, e1.t), e1.f)) {
      RemoveFits(code, e1.t);
      RemoveFits(RemoveValues(code, e1.t), e1.f);
    }
  }

  lemma CodeCompFits(fs: FS, rel: Rel, e1: ExpDesc, e2: ExpDesc)
    requires Fits(fs.code)
    ensures Fits(CodeComp(fs, rel, e1, e2).0.code)
  {
    hide Fits, Exp2RK, CondJump, OpOf, Swapped;
    Exp2RKFits(fs, e1);
    var (fs1, a) := Exp2RK(fs, e1);
    Exp2RKFits(fs1, e2);
    var (fs2, b) := Exp2RK(fs1, e2);
    var fs3 := FreeExp(FreeExp(fs2, b.k), a.k);
    if (a.k.VK? || a.k.VNonReloc?) && (b.k.VK? || b.k.VNonReloc?) {
      var o1, o2 := AsOperand(a.k), AsOperand(b.k);
      CondJumpFits(fs3, Cmp(OpOf(rel), true, o2, o1));
      CondJumpFits(fs3, Cmp(OpOf(rel), rel != NE, o1, o2));
    }
  }

  /** The generated code has only operands that can be encoded, whatever the number of constants. */
  lemma {:induction false} CompileFits(fs: FS, e: Expr)
    requires Fits(fs.code)
    ensures Fits(Compile(fs, e).0.code)
    decreases e
  {
    hide Fits, CodeNot, GoIfTrue, GoIfFalse, DischargeVars, Exp2RK, CodeComp;
    match e
    case NotE(a) =>
      CompileFits(fs, a);
      CodeNotFits(Compile(fs, a).0, Compile(fs, a).1);
    case And(a, b) =>
      CompileFits(fs, a);
      var (fs1, e1) := Compile(fs, a);
      GoIfFits(fs1, e1);
      var fs2 := GoIfTrue(fs1, e1).0;
      CompileFits(fs2, b);
      DischargeFits(Compile(fs2, b).0, Compile(fs2, b).1, 0);
    case Or(a, b) =>
      CompileFits(fs, a);
      var (fs1, e1) := Compile(fs, a);
      GoIfFits(fs1, e1);
      var fs2 := GoIfFalse(fs1, e1).0;
      CompileFits(fs2, b);
      DischargeFits(Compile(fs2, b).0, Compile(fs2, b).1, 0);
    case Rel(rel, a, b) =>
      CompileFits(fs, a);
      var (fs1, e1) := Compile(fs, a);
      Exp2RKFits(fs1, e1);
      var (fs2, e2) := Exp2RK(fs1, e1);
      CompileFits(fs2, b);
      CodeCompFits(Compile(fs2, b).0, rel, e2, Compile(fs2, b).1);
    case _ =>
  }

  /** A constant among the first 256 is an operand itself. */
  lemma ConstantOperand(fs: FS, e: ExpDesc)
    requires e.t == e.f && ((|fs.k| < 256 && (e.k.VKNum? || e.k.VTrue? || e.k.VFalse?)) || (e.k.VK? && e.k.i < 256))
    ensures Exp2RK(fs, e).1.k.VK? && Exp2RK(fs, e).0.code == fs.code
  {
  }
}

/** The code generator for expressions (lcode.c), on the state of the function being compiled.
    Jump lists are sequences of positions here; how they are threaded through the code is the
    subject of another module. */
module CodeGen {
  import opened LuaVm

  /** The link that ends a jump list. */
  const NO_JUMP := -1

  /** The largest index of a constant that fits an operand. */
  const MAXINDEXRK := 255

  /** Source comparisons. */
  datatype Rel = EQ | NE | LT | LE | GT | GE

  /** Expressions over local variables, upvalues and constants. A numeral and a string are
      the constants that are not booleans. */
  datatype Expr =
    | Local(r: int)
    | Upval(u: int)
    | True
    | False
    | Numeral(n: int)
    | Str(s: int)
    | NotE(e: Expr)
    | And(a: Expr, b: Expr)
    | Or(a: Expr, b: Expr)
    | Rel(rel: Rel, a: Expr, b: Expr)

  /** Where the value of an expression is. */
  datatype Kind =
    | VTrue
    | VFalse
    | VK(i: nat)
    | VKNum(v: Value)
    | VLocal(r: int)
    | VUpval(u: int)
    | VJmp(pc: nat)
    | VReloc(pc: nat)
    | VNonReloc(r: int)

  /** An expression: what is known of its value, and the jumps out of it when true or false. */
  datatype ExpDesc = ExpDesc(k: Kind, t: seq<nat>, f: seq<nat>)

  /** The function being compiled: code, constants, jumps to the current position, the first
      free register, the number of active local variables. */
  datatype FS = FS(code: seq<Instr>, k: seq<Value>, jpc: seq<nat>, free: int, nact: int)

  /** patchtestreg. */
  function PatchTest(i: Instr, reg: int): Instr
    requires i.TestSet?
  {
    if reg != NO_REG && reg != i.b then i.(a := reg) else Test(i.b, i.c)
  }

  function PatchAt(code: seq<Instr>, list: seq<nat>, vtarget: int, reg: int, dtarget: int, i: nat): Instr
    requires i < |code|
  {
    if i in list then Jmp((if HasValue(code, i) then vtarget else dtarget) - (i + 1))
    else if i + 1 in list && code[i].TestSet? then PatchTest(code[i], reg)
    else code[i]
  }

  /** patchlistaux: the jumps that produce a value go to `vtarget` with it, the others to
      `dtarget`. */
  function PatchList(code: seq<Instr>, list: seq<nat>, vtarget: int, reg: int, dtarget: int): (c: seq<Instr>)
    ensures |c| == |code| && forall i :: 0 <= i < |c| ==> c[i] == PatchAt(code, list, vtarget, reg, dtarget, i)
  {
    seq(|code|, i requires 0 <= i < |code| => PatchAt(code, list, vtarget, reg, dtarget, i))
  }

  /** removevalues. */
  function RemoveValues(code: seq<Instr>, list: seq<nat>): (c: seq<Instr>)
    ensures |c| == |code|
    ensures forall i :: 0 <= i < |c| ==>
      c[i] == if i + 1 in list && code[i].TestSet? then PatchTest(code[i], NO_REG) else code[i]
  {
    seq(|code|, i requires 0 <= i < |code| =>
      if i + 1 in list && code[i].TestSet? then PatchTest(code[i], NO_REG) else code[i])
  }

  /** need_value. */
  predicate NeedValue(code: seq<Instr>, list: seq<nat>) { exists p :: p in list && !HasValue(code, p) }

  /** luaK_code: the jumps to the current position get their target. */
  function Emit(fs: FS, i: Instr): FS
  {
    fs.(code := PatchList(fs.code, fs.jpc, |fs.code|, NO_REG, |fs.code|) + [i], jpc := [])
  }

  /** luaK_jump: the jumps to here join the new one. */
  function Jump(fs: FS): FS { fs.(code := fs.code + [Jmp(NO_JUMP)], jpc := []) }

  function JumpList(fs: FS): seq<nat> { [|fs.code|] + fs.jpc }

  /** condjump; the position of the jump is the one after that of the test. */
  function CondJump(fs: FS, i: Instr): FS { Jump(Emit(fs, i)) }

  /** luaK_patchtohere. */
  function PatchToHere(fs: FS, list: seq<nat>): FS { fs.(jpc := fs.jpc + list) }

  function IndexOf(k: seq<Value>, v: Value): (i: nat)
    requires v in k
    ensures i < |k| && k[i] == v
  {
    if k[0] == v then 0 else 1 + IndexOf(k[1..], v)
  }

  /** addk. */
  function AddK(fs: FS, v: Value): FS { if v in fs.k then fs else fs.(k := fs.k + [v]) }

  function KIndex(fs: FS, v: Value): nat { if v in fs.k then IndexOf(fs.k, v) else |fs.k| }

  /** freeexp. */
  function FreeExp(fs: FS, k: Kind): FS { if k.VNonReloc? && k.r >= fs.nact then fs.(free := fs.free - 1) else fs }

  /** luaK_reserveregs. */
  function Reserve(fs: FS): FS { fs.(free := fs.free + 1) }

  function SetA(i: Instr, reg: int): Instr
  {
    match i
    case Not(_, b) => Not(reg, b)
    case GetUpval(_, b) => GetUpval(reg, b)
    case _ => i
  }

  /** luaK_dischargevars. */
  function DischargeVars(fs: FS, e: ExpDesc): (FS, ExpDesc)
  {
    match e.k
    case VLocal(r) => (fs, e.(k := VNonReloc(r)))
    case VUpval(i) => (Emit(fs, GetUpval(0, i)), e.(k := VReloc(|fs.code|)))
    case _ => (fs, e)
  }

  /** discharge2reg, after the variables: only a pending comparison is left alone. */
  function ToReg(fs: FS, k: Kind, reg: int): FS
  {
    match k
    case VTrue => Emit(fs, LoadBool(reg, true, false))
    case VFalse => Emit(fs, LoadBool(reg, false, false))
    case VK(i) => Emit(fs, LoadK(reg, i))
    case VKNum(v) => Emit(AddK(fs, v), LoadK(reg, KIndex(fs, v)))
    case VReloc(pc) => if pc < |fs.code| then fs.(code := fs.code[pc := SetA(fs.code[pc], reg)]) else fs
    case VNonReloc(r) => if reg != r then Emit(fs, Move(reg, r)) else fs
    case _ => fs
  }

  function Discharge2Reg(fs: FS, e: ExpDesc, reg: int): (FS, ExpDesc)
  {
    var (fs1, e1) := DischargeVars(fs, e);
    (ToReg(fs1, e1.k, reg), if e1.k.VJmp? then e1 else e1.(k := VNonReloc(reg)))
  }

  /** discharge2anyreg. */
  function Discharge2AnyReg(fs: FS, e: ExpDesc): (FS, ExpDesc)
  {
    if e.k.VNonReloc? then (fs, e) else Discharge2Reg(Reserve(fs), e, fs.free)
  }

  /** The loads of false and true at the end of exp2reg, and the jump over them. */
  function LoadValues(fs: FS, jumps: bool, reg: int): FS
  {
    var fs1 := if jumps then Jump(fs) else fs;
    var fs2 := Emit(Emit(fs1, LoadBool(reg, false, true)), LoadBool(reg, true, false));
    PatchToHere(fs2, if jumps then JumpList(fs) else [])
  }

  /** exp2reg. */
  function Exp2Reg(fs: FS, e: ExpDesc, reg: int): FS
  {
    var (fs1, e1) := Discharge2Reg(fs, e, reg);
    var t := if e1.k.VJmp? then e1.t + [e1.k.pc] else e1.t;
    if t == e1.f then fs1
    else
      var need := NeedValue(fs1.code, t) || NeedValue(fs1.code, e1.f);
      var fs2 := if need then LoadValues(fs1, !e1.k.VJmp?, reg) else fs1;
      var final := |fs2.code|;
      var pt, pf := if need then final - 1 else NO_JUMP, if need then final - 2 else NO_JUMP;
      fs2.(code := PatchList(PatchList(fs2.code, e1.f, final, reg, pf), t, final, reg, pt))
  }

  function InReg(r: int): ExpDesc { ExpDesc(VNonReloc(r), [], []) }

  /** luaK_exp2nextreg. */
  function Exp2NextReg(fs: FS, e: ExpDesc): (FS, ExpDesc)
  {
    var (fs1, e1) := DischargeVars(fs, e);
    var fs2 := Reserve(FreeExp(fs1, e1.k));
    (Exp2Reg(fs2, e1, fs2.free - 1), InReg(fs2.free - 1))
  }

  /** luaK_exp2anyreg. */
  function Exp2AnyReg(fs: FS, e: ExpDesc): (FS, ExpDesc)
  {
    var (fs1, e1) := DischargeVars(fs, e);
    if e1.k.VNonReloc? && e1.t == e1.f then (fs1, e1)
    else if e1.k.VNonReloc? && e1.k.r >= fs1.nact then (Exp2Reg(fs1, e1, e1.k.r), InReg(e1.k.r))
    else Exp2NextReg(fs1, e1)
  }

  /** luaK_exp2val. */
  function Exp2Val(fs: FS, e: ExpDesc): (FS, ExpDesc)
  {
    if e.t != e.f then Exp2AnyReg(fs, e) else DischargeVars(fs, e)
  }

  /** The value of a constant that can become an operand. */
  function ConstValue(k: Kind): Value
    requires k.VKNum? || k.VTrue? || k.VFalse?
  {
    match k
    case VKNum(v) => v
    case VTrue => Bool(true)
    case VFalse => Bool(false)
  }

  /** luaK_exp2RK; the operand is then read off the expression. */
  function Exp2RK(fs: FS, e: ExpDesc): (FS, ExpDesc)
  {
    var (fs1, e1) := Exp2Val(fs, e);
    if (e1.k.VKNum? || e1.k.VTrue? || e1.k.VFalse?) && |fs1.k| <= MAXINDEXRK then
      (AddK(fs1, ConstValue(e1.k)), e1.(k := VK(KIndex(fs1, ConstValue(e1.k)))))
    else if e1.k.VK? && e1.k.i <= MAXINDEXRK then (fs1, e1)
    else Exp2AnyReg(fs1, e1)
  }

  function AsOperand(k: Kind): RK
    requires k.VK? || k.VNonReloc?
  {
    if k.VK? then K(k.i) else R(k.r)
  }

  /** invertjump. */
  function InvertJump(fs: FS, pc: nat): FS
  {
    if 0 < pc <= |fs.code| && fs.code[pc - 1].Cmp?
    then fs.(code := fs.code[pc - 1 := fs.code[pc - 1].(cond := !fs.code[pc - 1].cond)])
    else fs
  }

  /** jumponcond: the last jump is always at the end of the code. */
  function JumpOnCond(fs: FS, e: ExpDesc, cond: bool): FS
  {
    if e.k.VReloc? && e.k.pc + 1 == |fs.code| && fs.code[e.k.pc].Not? then
      CondJump(fs.(code := fs.code[..e.k.pc]), Test(fs.code[e.k.pc].b, !cond))
    else
      var (fs1, e1) := Discharge2AnyReg(fs, e);
      if e1.k.VNonReloc? then CondJump(FreeExp(fs1, e1.k), TestSet(NO_REG, e1.k.r, cond)) else fs1
  }

  /** luaK_goiftrue: what follows is for a true value; the list has the jumps for a false one. */
  function GoIfTrue(fs: FS, e: ExpDesc): (FS, seq<nat>)
  {
    var (fs1, e1) := DischargeVars(fs, e);
    var fs2 :=
      if e1.k.VK? || e1.k.VKNum? || e1.k.VTrue? then fs1
      else if e1.k.VFalse? then Jump(fs1)
      else if e1.k.VJmp? then InvertJump(fs1, e1.k.pc)
      else JumpOnCond(fs1, e1, false);
    var last :=
      if e1.k.VK? || e1.k.VKNum? || e1.k.VTrue? then []
      else if e1.k.VFalse? then JumpList(fs1)
      else if e1.k.VJmp? then [e1.k.pc]
      else if |fs2.code| > 0 then [|fs2.code| - 1] else [];
    (PatchToHere(fs2, e1.t), e1.f + last)
  }

  /** luaK_goiffalse: what follows is for a false value; the list has the jumps for a true one. */
  function GoIfFalse(fs: FS, e: ExpDesc): (FS, seq<nat>)
  {
    var (fs1, e1) := DischargeVars(fs, e);
    var fs2 :=
      if e1.k.VFalse? then fs1
      else if e1.k.VTrue? then Jump(fs1)
      else if e1.k.VJmp? then fs1
      else JumpOnCond(fs1, e1, true);
    var last :=
      if e1.k.VFalse? then []
      else if e1.k.VTrue? then JumpList(fs1)
      else if e1.k.VJmp? then [e1.k.pc]
      else if |fs2.code| > 0 then [|fs2.code| - 1] else [];
    (PatchToHere(fs2, e1.f), e1.t + last)
  }

  function GoIf(fs: FS, e: ExpDesc, want: bool): (FS, seq<nat>)
  {
    if want then GoIfTrue(fs, e) else GoIfFalse(fs, e)
  }

  /** codenot. */
  function CodeNot(fs: FS, e: ExpDesc): (FS, ExpDesc)
  {
    var (fs1, e1) := DischargeVars(fs, e);
    var (fs2, k) :=
      if e1.k.VFalse? then (fs1, VTrue)
      else if e1.k.VK? || e1.k.VKNum? || e1.k.VTrue? then (fs1, VFalse)
      else if e1.k.VJmp? then (InvertJump(fs1, e1.k.pc), e1.k)
      else
        var (fsr, er) := Discharge2AnyReg(fs1, e1);
        var fsf := FreeExp(fsr, er.k);
        (Emit(fsf, Not(0, if er.k.VNonReloc? then er.k.r else 0)), VReloc(|fsf.code|));
    (fs2.(code := RemoveValues(RemoveValues(fs2.code, e1.t), e1.f)), ExpDesc(k, e1.f, e1.t))
  }

  /** The opcode and the condition of a comparison. */
  function OpOf(rel: Rel): Op
  {
    match rel
    case EQ => Eq
    case NE => Eq
    case LT => Lt
    case LE => Le
    case GT => Lt
    case GE => Le
  }

  predicate Swapped(rel: Rel) { rel == GT || rel == GE }

  /** codecomp, on operands that are in place already. */
  function CodeComp(fs: FS, rel: Rel, e1: ExpDesc, e2: ExpDesc): (FS, ExpDesc)
  {
    var (fs1, a) := Exp2RK(fs, e1);
    var (fs2, b) := Exp2RK(fs1, e2);
    var fs3 := FreeExp(FreeExp(fs2, b.k), a.k);
    if (a.k.VK? || a.k.VNonReloc?) && (b.k.VK? || b.k.VNonReloc?) then
      var o1, o2 := AsOperand(a.k), AsOperand(b.k);
      var i := if Swapped(rel) then Cmp(OpOf(rel), true, o2, o1) else Cmp(OpOf(rel), rel != NE, o1, o2);
      (CondJump(fs3, i), a.(k := VJmp(|fs3.code| + 1)))
    else (fs3, a)
  }

  /** The calls that the parser makes for an expression: luaK_prefix for `not`, luaK_infix
      between the operands of a binary operator and luaK_posfix after them. */
  function Compile(fs: FS, e: Expr): (FS, ExpDesc)
    decreases e
  {
    match e
    case Local(r) => (fs, ExpDesc(VLocal(r), [], []))
    case Upval(i) => (fs, ExpDesc(VUpval(i), [], []))
    case True => (fs, ExpDesc(VTrue, [], []))
    case False => (fs, ExpDesc(VFalse, [], []))
    case Numeral(n) => (fs, ExpDesc(VKNum(Num(n)), [], []))
    case Str(s) => (AddK(fs, Text(s)), ExpDesc(VK(KIndex(fs, Text(s))), [], []))
    case NotE(a) =>
      var (fs1, e1) := Compile(fs, a);
      CodeNot(fs1, e1)
    case And(a, b) =>
      var (fs1, e1) := Compile(fs, a);
      var (fs2, f) := GoIfTrue(fs1, e1);
      var (fs3, e3) := Compile(fs2, b);
      var (fs4, e4) := DischargeVars(fs3, e3);
      (fs4, e4.(f := e4.f + f))
    case Or(a, b) =>
      var (fs1, e1) := Compile(fs, a);
      var (fs2, t) := GoIfFalse(fs1, e1);
      var (fs3, e3) := Compile(fs2, b);
      var (fs4, e4) := DischargeVars(fs3, e3);
      (fs4, e4.(t := e4.t + t))
    case Rel(rel, a, b) =>
      var (fs1, e1) := Compile(fs, a);
      var (fs2, e2) := Exp2RK(fs1, e1);
      var (fs3, e3) := Compile(fs2, b);
      CodeComp(fs3, rel, e2, e3)
  }

  /** What exp2reg works on: a pending comparison is a jump for true, and false otherwise. */
  function Settled(e: ExpDesc): ExpDesc { if e.k.VJmp? then ExpDesc(VFalse, e.t + [e.k.pc], e.f) else e }

  lemma CompileAnd(fs: FS, a: Expr, b: Expr)
    ensures var (fs1, e1) := Compile(fs, a);
      var (fs2, f) := GoIfTrue(fs1, e1); var (fs3, e3) := Compile(fs2, b); var (fs4, e4) := DischargeVars(fs3, e3);
      Compile(fs, And(a, b)) == (fs4, e4.(f := e4.f + f))
  {
    hide GoIfTrue, DischargeVars;
  }

  lemma CompileOr(fs: FS, a: Expr, b: Expr)
    ensures var (fs1, e1) := Compile(fs, a);
      var (fs2, t) := GoIfFalse(fs1, e1); var (fs3, e3) := Compile(fs2, b); var (fs4, e4) := DischargeVars(fs3, e3);
      Compile(fs, Or(a, b)) == (fs4, e4.(t := e4.t + t))
  {
    hide GoIfFalse, DischargeVars;
  }

  /** The value of an expression and the comparisons made to find it: what Lua means. */
  function Eval(w: World, e: Expr, m: Machine): (Value, seq<Event>)
  {
    match e
    case Local(r) => (Get(m, r), m.trace)
    case Upval(i) => (w.up(m.trace, i), m.trace)
    case True => (Bool(true), m.trace)
    case False => (Bool(false), m.trace)
    case Numeral(n) => (Num(n), m.trace)
    case Str(s) => (Text(s), m.trace)
    case NotE(a) =>
      var (v, tr) := Eval(w, a, m);
      (Bool(Falsy(v)), tr)
    case And(a, b) =>
      var (v, tr) := Eval(w, a, m);
      if Falsy(v) then (v, tr) else Eval(w, b, m.(trace := tr))
    case Or(a, b) =>
      var (v, tr) := Eval(w, a, m);
      if Falsy(v) then Eval(w, b, m.(trace := tr)) else (v, tr)
    case Rel(rel, a, b) =>
      var (x, tr1) := Eval(w, a, m);
      var (y, tr2) := Eval(w, b, m.(trace := tr1));
      var (l, r) := if Swapped(rel) then (y, x) else (x, y);
      (Bool(Compare(w, OpOf(rel), l, r, tr2) == (rel != NE)), tr2 + [Event(OpOf(rel), l, r)])
  }
}

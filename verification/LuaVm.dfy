/** The part of the Lua virtual machine that boolean expressions compile to (lvm.c, lopcodes.h). */
module LuaVm {
  datatype Value = Nil | Bool(b: bool) | Num(n: int) | Text(s: int) | Ref(id: int)

  predicate Falsy(v: Value) { v == Nil || v == Bool(false) }

  /** The comparisons the machine has. */
  datatype Op = Eq | Lt | Le

  datatype Event = Event(op: Op, left: Value, right: Value)

  /** The registers of a function, and the comparisons made so far: a comparison may call a
      metamethod, so its result may depend on all that happened before. */
  datatype Machine = Machine(reg: map<int, Value>, trace: seq<Event>)

  function Get(m: Machine, r: int): Value { if r in m.reg then m.reg[r] else Nil }

  function Put(m: Machine, r: int, v: Value): Machine { m.(reg := m.reg[r := v]) }

  /** What is outside the function: upvalues, and the outcome of comparisons. Both may depend on
      the comparisons made so far. */
  datatype World = World(up: (seq<Event>, int) -> Value, rel: (seq<Event>, Op, Value, Value) -> bool)

  /** An operand: a register or a constant. */
  datatype RK = R(r: int) | K(i: nat)

  datatype Instr =
    | Move(a: int, b: int)
    | LoadK(a: int, bx: nat)
    | LoadBool(a: int, value: bool, skip: bool)
    | GetUpval(a: int, b: int)
    | Not(a: int, b: int)
    | Jmp(sbx: int)
    | Cmp(op: Op, cond: bool, left: RK, right: RK)
    | Test(a: int, c: bool)
    | TestSet(a: int, b: int, c: bool)

  /** The register of a value jump that has not been given one. */
  const NO_REG := -1

  predicate IsTest(i: Instr) { i.Cmp? || i.Test? || i.TestSet? }

  function Operand(k: seq<Value>, m: Machine, o: RK): Value
  {
    match o
    case R(r) => Get(m, r)
    case K(i) => if i < |k| then k[i] else Nil
  }

  function Compare(w: World, op: Op, x: Value, y: Value, trace: seq<Event>): bool { w.rel(trace, op, x, y) }

  function Record(m: Machine, op: Op, x: Value, y: Value): Machine { m.(trace := m.trace + [Event(op, x, y)]) }

  /** One instruction. A test goes on to the jump that follows it or skips that jump; a
      backward jump, which expressions do not have, stays where it is. */
  function Step(w: World, k: seq<Value>, code: seq<Instr>, pc: nat, m: Machine): (nat, Machine)
    requires pc < |code|
  {
    match code[pc]
    case Move(a, b) => (pc + 1, Put(m, a, Get(m, b)))
    case LoadK(a, bx) => (pc + 1, Put(m, a, Operand(k, m, K(bx))))
    case LoadBool(a, v, skip) => (if skip then pc + 2 else pc + 1, Put(m, a, Bool(v)))
    case GetUpval(a, b) => (pc + 1, Put(m, a, w.up(m.trace, b)))
    case Not(a, b) => (pc + 1, Put(m, a, Bool(Falsy(Get(m, b)))))
    case Jmp(s) => (if s >= 0 then pc + 1 + s else pc, m)
    case Cmp(op, cond, left, right) =>
      var x, y := Operand(k, m, left), Operand(k, m, right);
      (if Compare(w, op, x, y, m.trace) == cond then pc + 1 else pc + 2, Record(m, op, x, y))
    case Test(a, c) => (if Falsy(Get(m, a)) != c then pc + 1 else pc + 2, m)
    case TestSet(a, b, c) =>
      if Falsy(Get(m, b)) != c then (pc + 1, if a == NO_REG then m else Put(m, a, Get(m, b))) else (pc + 2, m)
  }

  /** Runs code up to its end or to one of the positions in `holes`. */
  function Run(w: World, k: seq<Value>, code: seq<Instr>, holes: set<nat>, pc: nat, m: Machine): (nat, Machine)
    decreases if pc < |code| then |code| - pc else 0
  {
    if pc >= |code| || pc in holes then (pc, m)
    else
      var (p, m1) := Step(w, k, code, pc, m);
      if p <= pc then (pc, m) else Run(w, k, code, holes, p, m1)
  }

  /** A position that is not the jump of a test. */
  predicate Landing(code: seq<Instr>, d: nat) { d == 0 || d > |code| || !IsTest(code[d - 1]) }

  predicate Paired(code: seq<Instr>, i: nat) { i + 1 < |code| && code[i + 1].Jmp? }

  predicate OperandOk(nk: nat, o: RK) { o.K? ==> o.i < nk }

  predicate HasValue(code: seq<Instr>, p: nat) { 0 < p <= |code| && code[p - 1].TestSet? }

  /** An instruction outside the holes goes forward, to a place that can be gone to. */
  ghost predicate OkAt(code: seq<Instr>, nk: nat, holes: set<nat>, i: nat)
    requires i < |code|
  {
    match code[i]
    case Jmp(s) => s >= 0 && i + 1 + s <= |code| && Landing(code, i + 1 + s)
    case Cmp(_, _, left, right) => Paired(code, i) && OperandOk(nk, left) && OperandOk(nk, right)
    case Test(_, _) => Paired(code, i)
    case TestSet(a, _, _) => Paired(code, i) && (a == NO_REG <==> i + 1 in holes)
    case LoadBool(_, _, skip) => skip ==> i + 2 <= |code| && Landing(code, i + 2)
    case LoadK(_, bx) => bx < nk
    case _ => true
  }

  ghost predicate WF(code: seq<Instr>, nk: nat, holes: set<nat>)
  {
    && (forall i :: 0 <= i < |code| && i !in holes ==> OkAt(code, nk, holes, i))
    && Landing(code, |code|)
  }

  lemma WFAt(code: seq<Instr>, nk: nat, holes: set<nat>, i: nat)
    requires WF(code, nk, holes) && i < |code| && i !in holes
    ensures OkAt(code, nk, holes, i)
  {
  }

  /** A value jump may lose its value or be given a register. */
  predicate SameBut(i: Instr, i': Instr)
  {
    i' == i || (i.TestSet? && i.a == NO_REG && (i' == Test(i.b, i.c) || (i'.TestSet? && i'.b == i.b && i'.c == i.c)))
  }

  /** New code in which the old one is intact but for its holes. */
  ghost predicate Patched(code: seq<Instr>, holes: set<nat>, code': seq<Instr>, holes': set<nat>)
  {
    && (forall i :: 0 <= i < |code| && i !in holes ==> i < |code'| && i !in holes' && SameBut(code[i], code'[i]))
    && (forall i :: 0 <= i < |code| && i in holes && i < |code'| ==> !code'[i].TestSet?)
  }

  /** The store that a value jump in new code makes on the way to the jump at `p`. */
  function Wrote(code: seq<Instr>, p: nat, m: Machine): Machine
  {
    if HasValue(code, p) && code[p - 1].a != NO_REG then Put(m, code[p - 1].a, Get(m, code[p - 1].b)) else m
  }

  /** Where a run may begin. */
  predicate Entry(code: seq<Instr>, pc: nat) { pc <= |code| && (Landing(code, pc) || (pc < |code| && code[pc].Jmp?)) }

  /** A run of the new code goes as the run of the old code did until that came to a hole or
      to the end, and on from there. */
  lemma {:induction false} Resume(w: World, k: seq<Value>, code: seq<Instr>, holes: set<nat>, k': seq<Value>,
      code': seq<Instr>, holes': set<nat>, pc: nat, m: Machine)
    requires WF(code, |k|, holes) && k <= k' && Patched(code, holes, code', holes')
    requires Entry(code, pc)
    ensures var (p, m1) := Run(w, k, code, holes, pc, m);
      && (p == |code| || p in holes) && p <= |code|
      && Run(w, k', code', holes', pc, if pc in holes then Wrote(code', pc, m) else m)
         == Run(w, k', code', holes', p, Wrote(code', p, m1))
    decreases |code| - pc
  {
    if pc == |code| {
      EndStore(code, |k|, holes, code', holes', m);
    } else if pc !in holes {
      var (p, m1) := Step(w, k, code, pc, m);
      StepSame(w, k, code, holes, k', code', holes', pc, m);
      if IsTest(code[pc]) && p == pc + 1 {
        if p !in holes {
          var (q, m2) := Step(w, k, code, p, m1);
          StepSame(w, k, code, holes, k', code', holes', p, m1);
          Resume(w, k, code, holes, k', code', holes', q, m2);
          if q in holes { assert Wrote(code', q, m2) == m2; }
        }
      } else {
        Resume(w, k, code, holes, k', code', holes', p, m1);
        if p in holes { assert Wrote(code', p, m1) == m1; }
      }
    }
  }

  lemma EndStore(code: seq<Instr>, nk: nat, holes: set<nat>, code': seq<Instr>, holes': set<nat>, m: Machine)
    requires WF(code, nk, holes) && Patched(code, holes, code', holes')
    ensures Wrote(code', |code|, m) == m
  {
    var p := |code|;
    if p > 0 && p <= |code'| { assert p - 1 !in holes ==> SameBut(code[p - 1], code'[p - 1]); }
  }

  /** One step of either code: to the same place, with at most the store of a value jump. */
  lemma StepSame(w: World, k: seq<Value>, code: seq<Instr>, holes: set<nat>, k': seq<Value>, code': seq<Instr>,
      holes': set<nat>, pc: nat, m: Machine)
    requires WF(code, |k|, holes) && k <= k' && Patched(code, holes, code', holes') && pc < |code| && pc !in holes
    ensures var (p, m1) := Step(w, k, code, pc, m);
      && pc < p <= |code| && pc < |code'|
      && (if IsTest(code[pc]) && p == pc + 1 then Paired(code, pc) else Landing(code, p))
      && Step(w, k', code', pc, m)
         == (p, if IsTest(code[pc]) && p == pc + 1 && p in holes then Wrote(code', p, m1) else m1)
      && (Landing(code, p) ==> Wrote(code', p, m1) == m1)
  {
    assert OkAt(code, |k|, holes, pc);
    assert SameBut(code[pc], code'[pc]);
    var (p, m1) := Step(w, k, code, pc, m);
    if p == |code| { assert p - 1 !in holes ==> SameBut(code[p - 1], code'[p - 1]); }
  }
}

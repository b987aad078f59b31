/** The interpreter loop on the instructions of boolean expressions (luaV_execute in lvm.c). */
module CodeExec {
  import opened LuaVm

  class Interpreter {
    var reg: map<int, Value>
    var trace: seq<Event>
    var pc: nat

    constructor (reg: map<int, Value>, pc: nat)
      ensures this.reg == reg && this.pc == pc && trace == []
    {
      this.reg, this.pc, this.trace := reg, pc, [];
    }

    function M(): Machine
      reads this
    {
      Machine(reg, trace)
    }

    /** luaV_execute: a test that succeeds takes the jump that follows it at once, one that
        fails skips it. The outcome is that of running instruction by instruction. */
    method Execute(w: World, k: seq<Value>, code: seq<Instr>)
      requires WF(code, |k|, {}) && pc <= |code| && Landing(code, pc)
      modifies this
      ensures pc == |code| && (pc, M()) == Run(w, k, code, {}, old(pc), old(M()))
    {
      hide WF;
      ghost var end := Run(w, k, code, {}, pc, M());
      while pc < |code|
        invariant pc <= |code| && Landing(code, pc) && Run(w, k, code, {}, pc, M()) == end
        decreases |code| - pc
      {
        ghost var at, m := pc, M();
        WFAt(code, |k|, {}, at);
        var i := code[pc];
        pc := pc + 1;
        if IsTest(i) {
          WFAt(code, |k|, {}, pc);
          var yes := Decide(w, k, i);
          if yes { pc := pc + code[pc].sbx; }
          pc := pc + 1;
          TestRun(w, k, code, at, m);
        } else {
          OneRun(w, k, code, at, m);
          match i
          case Move(a, b) => reg := reg[a := Get(M(), b)];
          case LoadK(a, bx) => reg := reg[a := k[bx]];
          case LoadBool(a, v, skip) =>
            reg := reg[a := Bool(v)];
            if skip { pc := pc + 1; }
          case GetUpval(a, b) => reg := reg[a := w.up(trace, b)];
          case Not(a, b) => reg := reg[a := Bool(Falsy(Get(M(), b)))];
          case Jmp(s) => pc := pc + s;
        }
      }
    }

    /** Whether a test takes its jump; TESTSET stores the value when it does. */
    method Decide(w: World, k: seq<Value>, i: Instr) returns (yes: bool)
      requires IsTest(i) && (i.TestSet? ==> i.a != NO_REG)
      modifies this`reg, this`trace
      ensures (yes, M()) == TestOf(w, k, i, old(M()))
    {
      match i
      case Cmp(op, cond, left, right) =>
        var x, y := Operand(k, M(), left), Operand(k, M(), right);
        yes := Compare(w, op, x, y, trace) == cond;
        trace := trace + [Event(op, x, y)];
      case Test(a, c) =>
        yes := Falsy(Get(M(), a)) != c;
      case TestSet(a, b, c) =>
        yes := Falsy(Get(M(), b)) != c;
        if yes { reg := reg[a := Get(M(), b)]; }
    }
  }

  /** The outcome of a test, and what it leaves behind. */
  function TestOf(w: World, k: seq<Value>, i: Instr, m: Machine): (bool, Machine)
    requires IsTest(i)
  {
    match i
    case Cmp(op, cond, left, right) =>
      var x, y := Operand(k, m, left), Operand(k, m, right);
      (Compare(w, op, x, y, m.trace) == cond, Record(m, op, x, y))
    case Test(a, c) => (Falsy(Get(m, a)) != c, m)
    case TestSet(a, b, c) =>
      var yes := Falsy(Get(m, b)) != c;
      (yes, if yes && a != NO_REG then Put(m, a, Get(m, b)) else m)
  }

  lemma OneRun(w: World, k: seq<Value>, code: seq<Instr>, pc: nat, m: Machine)
    requires pc < |code| && OkAt(code, |k|, {}, pc) && !IsTest(code[pc])
    ensures var (p, m1) := Step(w, k, code, pc, m);
      p > pc && p <= |code| && Landing(code, p) && Run(w, k, code, {}, pc, m) == Run(w, k, code, {}, p, m1)
  {
  }

  lemma TestRun(w: World, k: seq<Value>, code: seq<Instr>, pc: nat, m: Machine)
    requires WF(code, |k|, {}) && pc < |code| && IsTest(code[pc])
    ensures pc + 1 < |code| && code[pc + 1].Jmp? && code[pc + 1].sbx >= 0
    ensures var (yes, m1) := TestOf(w, k, code[pc], m); var p := if yes then pc + 2 + code[pc + 1].sbx else pc + 2;
      p <= |code| && Landing(code, p) && Run(w, k, code, {}, pc, m) == Run(w, k, code, {}, p, m1)
  {
    assert OkAt(code, |k|, {}, pc) && OkAt(code, |k|, {}, pc + 1);
    var (yes, m1) := TestOf(w, k, code[pc], m);
    assert Step(w, k, code, pc, m) == (if yes then pc + 1 else pc + 2, m1);
    if yes {
      assert Step(w, k, code, pc + 1, m1).0 == pc + 2 + code[pc + 1].sbx;
      assert Run(w, k, code, {}, pc + 1, m1) == Run(w, k, code, {}, pc + 2 + code[pc + 1].sbx, m1);
    }
  }
}

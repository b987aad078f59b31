/** What the code under construction computes. */
module CodeMeaning {
  import opened Base
  import opened LuaVm
  import opened CodeGen
  import opened CodeFlow
  import opened CodeShape

  /** A run of the code of an expression: entered at `x` with machine `m`, where the registers
      below `base` are in use, it is to find the truth of the value `v` after the comparisons `tr`,
      and to end the way `way` says. */
  datatype Query = Query(w: World, x: nat, m: Machine, base: int, v: Value, tr: seq<Event>, way: Way)

  /** The registers in use are as they were. */
  ghost predicate SameBelow(m: Machine, m': Machine, base: int)
  {
    forall r :: r < base ==> Get(m', r) == Get(m, r)
  }

  /** What the jump `p` carries: what is in the register of its test. */
  function Carried(code: seq<Instr>, p: nat, m: Machine): Option<Value>
  {
    if HasValue(code, p) then Some(Get(m, code[p - 1].b)) else None
  }

  /** What is held at the end of the code, by a jump that waits for it. */
  function Holding(fs: FS, p: nat, m: Machine): Option<Value> { if p in fs.jpc then Carried(fs.code, p, m) else None }

  /** The jump carries what it should; the value of one that carries nothing is a boolean. */
  predicate Brings(q: Query, code: seq<Instr>, p: nat, m: Machine)
  {
    q.way == Leaves(Carried(code, p, m)) && (HasValue(code, p) || q.v.Bool?)
  }

  /** The value an unfinished instruction is going to compute. */
  function ValueOf(w: World, i: Instr, m: Machine): Value
  {
    match i
    case Not(_, b) => Bool(Falsy(Get(m, b)))
    case GetUpval(_, b) => w.up(m.trace, b)
    case _ => Nil
  }

  /** The comparison `i` finds the value, as its last comparison. */
  predicate Compares(q: Query, k: seq<Value>, i: Instr, m: Machine)
  {
    && i.Cmp?
    && var x, y := Operand(k, m, i.left), Operand(k, m, i.right);
      q.v == Bool(Compare(q.w, i.op, x, y, m.trace) == i.cond) && q.tr == m.trace + [Event(i.op, x, y)]
  }

  /** The code has come to the end of the expression, whose value is where `k` says. */
  ghost predicate Holds(q: Query, fs: FS, k: Kind, m: Machine)
  {
    if k.VJmp? then 0 < k.pc <= |fs.code| && Compares(q, fs.k, fs.code[k.pc - 1], m)
    else
      && m.trace == q.tr
      && match k
         case VTrue => q.v == Bool(true)
         case VFalse => q.v == Bool(false)
         case VK(i) => i < |fs.k| && q.v == fs.k[i]
         case VKNum(x) => q.v == x
         case VLocal(r) => q.v == Get(m, r)
         case VUpval(u) => q.v == q.w.up(m.trace, u)
         case VNonReloc(r) => q.v == Get(m, r)
         case VReloc(pc) => pc < |fs.code| && q.v == ValueOf(q.w, fs.code[pc], m)
  }

  ghost predicate AtEnd(fs: FS, k: Kind, p: nat)
  {
    match k
    case VJmp(pc) => p + 1 == pc
    case VReloc(pc) => p == pc
    case _ => p == |fs.code| || p in fs.jpc
  }

  /** A run that stopped at `p` with `m` found the value. */
  ghost predicate Exit(q: Query, fs: FS, e: ExpDesc, p: nat, m: Machine)
  {
    && SameBelow(q.m, m, q.base)
    && (if p in e.t then !Falsy(q.v) && Brings(q, fs.code, p, m) && m.trace == q.tr
        else if p in e.f then Falsy(q.v) && Brings(q, fs.code, p, m) && m.trace == q.tr
        else AtEnd(fs, e.k, p) && Holds(q, fs, e.k, m) && q.way.Arrives?)
  }

  function Runs(q: Query, fs: FS, holes: set<nat>, pc: nat, m: Machine): (nat, Machine)
  {
    Run(q.w, fs.k, fs.code, holes, pc, m)
  }

  /** Where the code so far leads, entered at `x`; at the jump of a value test, with its store made. */
  ghost function Leads(w: World, fs: FS, e: ExpDesc, outer: set<nat>, x: nat, m: Machine): (nat, Machine)
  {
    Run(w, fs.k, fs.code, outer + Own(fs, e), x, Wrote(fs.code, x, m))
  }

  ghost function Ends(q: Query, fs: FS, e: ExpDesc, outer: set<nat>): (nat, Machine)
  {
    Leads(q.w, fs, e, outer, q.x, q.m)
  }

  /** What is held at the end is what the query says. */
  ghost predicate Tracks(q: Query, fs: FS, e: ExpDesc, outer: set<nat>)
  {
    var (p, m) := Ends(q, fs, e, outer);
    q.way.Arrives? ==> q.way.held == Holding(fs, p, m)
  }

  /** The code so far answers the query. */
  ghost predicate Means(q: Query, fs: FS, e: ExpDesc, outer: set<nat>)
  {
    var (p, m) := Ends(q, fs, e, outer);
    Exit(q, fs, e, p, m)
  }

  ghost predicate Good(q: Query, fs: FS, e: ExpDesc, outer: set<nat>)
  {
    StateOk(fs, e, outer) && Entry(fs.code, q.x) && Means(q, fs, e, outer)
  }

  /** A jump that waits has no register yet. */
  lemma NoStore(fs: FS, e: ExpDesc, outer: set<nat>, p: nat, m: Machine)
    requires StateOk(fs, e, outer) && (p == |fs.code| || p in outer || p in e.t || p in e.f || p in fs.jpc)
    ensures Wrote(fs.code, p, m) == m
  {
    if HasValue(fs.code, p) {
      var h := outer + Own(fs, e);
      assert p - 1 !in h;
      assert OkAt(fs.code, |fs.k|, h, p - 1);
    }
  }

  /** Where the jumps of an expression are. */
  lemma Listed(fs: FS, e: ExpDesc, outer: set<nat>)
    requires StateOk(fs, e, outer)
    ensures forall p :: p in e.t ==> p < |fs.code| && fs.code[p].Jmp? && p in Own(fs, e)
    ensures forall p :: p in e.f ==> p < |fs.code| && fs.code[p].Jmp? && p in Own(fs, e)
    ensures forall p :: p in fs.jpc ==> p < |fs.code| && fs.code[p].Jmp?
    ensures forall p :: p in e.f ==> p !in e.t
    ensures forall p :: p in outer ==> p < |fs.code| && p !in e.t && p !in e.f && p !in fs.jpc
    ensures Landing(fs.code, |fs.code|)
  {
    hide KindOk, KindHoles;
  }

  /** A run after an operation that keeps the lists: where the old one left the expression by a
      jump, so does the new one; otherwise it goes on from where the old one ended. */
  lemma GoesOn(q: Query, fs: FS, e: ExpDesc, fs': FS, e': ExpDesc, outer: set<nat>) returns (p: nat, m: Machine)
    requires Good(q, fs, e, outer) && Keeps(fs, e, fs', e', outer)
    requires forall q :: q in e.t + e.f ==> q in e'.t + e'.f
    ensures (p, m) == Ends(q, fs, e, outer) && Exit(q, fs, e, p, m) && (p in e.t + e.f || AtEnd(fs, e.k, p))
    ensures var out := Ends(q, fs', e', outer);
      if p in e.t + e.f then out == (p, m) else out == Runs(q, fs', outer + Own(fs', e'), p, Wrote(fs'.code, p, m))
  {
    OpRun(fs, e, fs', e', outer, q.w, q.x, q.m);
    var out := Ends(q, fs, e, outer);
    p, m := out.0, out.1;
    hide WF, KindOk;
    if p in e.t + e.f {
      assert p in e'.t || p in e'.f;
      NoStore(fs', e', outer, p, m);
    }
  }

  predicate SameControl(code: seq<Instr>, code': seq<Instr>, p: nat)
  {
    HasValue(code', p) == HasValue(code, p) && (HasValue(code, p) ==> code'[p - 1] == code[p - 1])
  }

  /** Leaving by a jump is not affected by what comes after. */
  lemma ExitByJump(q: Query, fs: FS, e: ExpDesc, fs': FS, e': ExpDesc, p: nat, m: Machine)
    requires Exit(q, fs, e, p, m) && p in e.t + e.f && SameControl(fs.code, fs'.code, p)
    requires (p in e.t ==> p in e'.t) && (p in e.f && p !in e.t ==> p in e'.f && p !in e'.t)
    ensures Exit(q, fs', e', p, m)
  {
  }

  lemma ExitHolds(q: Query, fs: FS, e: ExpDesc, p: nat, m: Machine)
    requires Exit(q, fs, e, p, m) && p !in e.t + e.f
    ensures SameBelow(q.m, m, q.base) && AtEnd(fs, e.k, p) && Holds(q, fs, e.k, m) && q.way.Arrives?
  {
  }

  lemma ExitLoaded(q: Query, fs: FS, e: ExpDesc, p: nat, m: Machine, reg: int)
    requires SameBelow(q.m, m, q.base) && m.trace == q.tr && e.k == VNonReloc(reg) && q.base <= reg && p == |fs.code|
    requires p !in e.t + e.f && q.way.Arrives?
    ensures Exit(q, fs, e, p, Put(m, reg, q.v))
  {
  }

  lemma DischargeGood(q: Query, fs: FS, e: ExpDesc, outer: set<nat>)
    requires Good(q, fs, e, outer) && NoHoles(e.k)
    ensures Good(q, Discharge(fs), e, outer) && Keeps(fs, e, Discharge(fs), e, outer)
  {
    hide StateOk, Own, Run, Entry, Exit, Holds;
    var fs' := Discharge(fs);
    DischargeOp(fs, e, outer);
    var p, m := GoesOn(q, fs, e, fs', e, outer);
    Listed(fs, e, outer);
    if p in e.t + e.f {
      DischargeControl(fs, e, outer, p);
      ExitByJump(q, fs, e, fs', e, p, m);
    } else {
      ExitHolds(q, fs, e, p, m);
      DischargeEnd(q, fs, e, outer, p, m);
      ExitAtEnd(q, fs, e, fs', m);
    }
  }

  lemma DischargeControl(fs: FS, e: ExpDesc, outer: set<nat>, p: nat)
    requires StateOk(fs, e, outer) && p in e.t + e.f
    ensures SameControl(fs.code, Discharge(fs).code, p)
  {
    hide WF, KindOk;
  }

  lemma DischargeEnd(q: Query, fs: FS, e: ExpDesc, outer: set<nat>, p: nat, m: Machine)
    requires StateOk(fs, e, outer) && NoHoles(e.k) && (p == |fs.code| || p in fs.jpc)
    ensures Runs(q, Discharge(fs), outer + Own(Discharge(fs), e), p, Wrote(Discharge(fs).code, p, m)) == (|fs.code|, m)
    ensures |fs.code| !in e.t && |fs.code| !in e.f
  {
    hide StateOk, Evolves, Entry, Run;
    var fs' := Discharge(fs);
    Listed(fs, e, outer);
    DischargeOp(fs, e, outer);
    if p == |fs.code| {
      NoStore(fs', e, outer, p, m);
      Stopped(q, fs', outer + Own(fs', e), p, m);
    } else {
      DischargeJump(fs, e, outer, p, m);
      JumpRun(q, fs', outer + Own(fs', e), p, m);
      Stopped(q, fs', outer + Own(fs', e), |fs.code|, m);
    }
  }

  lemma DischargeJump(fs: FS, e: ExpDesc, outer: set<nat>, p: nat, m: Machine)
    requires StateOk(fs, e, outer) && NoHoles(e.k) && p in fs.jpc
    ensures var fs' := Discharge(fs);
      && p < |fs'.code| && p !in outer + Own(fs', e) && fs'.code[p] == Jmp(|fs.code| - (p + 1))
      && Wrote(fs'.code, p, m) == m
  {
    hide WF;
    var fs' := Discharge(fs);
    assert fs'.code[p] == PatchAt(fs.code, fs.jpc, |fs.code|, NO_REG, |fs.code|, p);
    if p > 0 { assert fs'.code[p - 1] == PatchAt(fs.code, fs.jpc, |fs.code|, NO_REG, |fs.code|, p - 1); }
  }

  lemma Stopped(q: Query, fs: FS, holes: set<nat>, p: nat, m: Machine)
    requires p in holes || p >= |fs.code|
    ensures Runs(q, fs, holes, p, m) == (p, m)
  {
  }

  lemma JumpRun(q: Query, fs: FS, holes: set<nat>, p: nat, m: Machine)
    requires p < |fs.code| && p !in holes && fs.code[p].Jmp? && fs.code[p].sbx >= 0
    ensures Runs(q, fs, holes, p, m) == Runs(q, fs, holes, p + 1 + fs.code[p].sbx, m)
  {
  }

  lemma ExitAtEnd(q: Query, fs: FS, e: ExpDesc, fs': FS, m: Machine)
    requires SameBelow(q.m, m, q.base) && Holds(q, fs, e.k, m) && NoHoles(e.k) && |fs'.code| !in e.t
    requires |fs'.code| !in e.f && fs.k <= fs'.k && q.way.Arrives?
    ensures Exit(q, fs', e, |fs'.code|, m)
  {
  }

  /** The instruction that puts the value of an expression into a register. */
  predicate Loads(fs: FS, k: Kind, i: Instr, reg: int)
  {
    match k
    case VTrue => i == LoadBool(reg, true, false)
    case VFalse => i == LoadBool(reg, false, false)
    case VK(n) => i == LoadK(reg, n)
    case VKNum(n) => i.LoadK? && i.a == reg && i.bx < |fs.k| && fs.k[i.bx] == n
    case VNonReloc(r) => i == Move(reg, r)
    case _ => false
  }

  /** The value goes to a register. */
  lemma AppendGood(q: Query, fs: FS, e: ExpDesc, outer: set<nat>, i: Instr, reg: int)
    requires Good(q, fs, e, outer) && fs.jpc == [] && NoHoles(e.k) && Plain(i, |fs.k|) && Loads(fs, e.k, i, reg)
    requires q.base <= reg < fs.free && 0 <= reg
    ensures Good(q, fs.(code := fs.code + [i]), e.(k := VNonReloc(reg)), outer)
    ensures Keeps(fs, e, fs.(code := fs.code + [i]), e.(k := VNonReloc(reg)), outer)
  {
    hide StateOk, Holds, Own, Run, Entry, Loads, Exit;
    var fs', e' := fs.(code := fs.code + [i]), e.(k := VNonReloc(reg));
    AppendOp(fs, e, outer, i, VNonReloc(reg));
    Listed(fs, e, outer);
    var p, m := GoesOn(q, fs, e, fs', e', outer);
    if p in e.t + e.f {
      ExitByJump(q, fs, e, fs', e', p, m);
    } else {
      ExitHolds(q, fs, e, p, m);
      LoadRun(q, fs, e, outer, i, reg, m);
      ExitLoaded(q, fs', e', p + 1, m, reg);
    }
  }

  lemma LoadRun(q: Query, fs: FS, e: ExpDesc, outer: set<nat>, i: Instr, reg: int, m: Machine)
    requires StateOk(fs, e, outer) && fs.jpc == [] && Loads(fs, e.k, i, reg) && Plain(i, |fs.k|) && NoHoles(e.k)
    requires Holds(q, fs, e.k, m)
    ensures var fs', e' := fs.(code := fs.code + [i]), e.(k := VNonReloc(reg));
      Runs(q, fs', outer + Own(fs', e'), |fs.code|, Wrote(fs'.code, |fs.code|, m)) == (|fs.code| + 1, Put(m, reg, q.v))
    ensures m.trace == q.tr && |fs.code| + 1 !in e.t && |fs.code| + 1 !in e.f
  {
    Listed(fs, e, outer);
    hide StateOk;
    var fs', e' := fs.(code := fs.code + [i]), e.(k := VNonReloc(reg));
    assert |fs.code| !in outer + Own(fs', e');
    StepRun(q, fs', outer + Own(fs', e'), |fs.code|, m);
  }

  lemma StepRun(q: Query, fs: FS, holes: set<nat>, p: nat, m: Machine)
    requires p < |fs.code| && p !in holes && !fs.code[p].Jmp?
    ensures var (p', m') := Step(q.w, fs.k, fs.code, p, m); Runs(q, fs, holes, p, m) == Runs(q, fs, holes, p', m')
  {
  }
}

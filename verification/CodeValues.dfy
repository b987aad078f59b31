/** The value of a whole expression in a register: exp2reg and what builds on it. */
module CodeValues {
  import opened Base
  import opened LuaVm
  import opened CodeGen
  import opened CodeFlow
  import opened CodeShape
  import opened CodeMeaning
  import opened CodeRegs
  import opened CodeJumps
  import opened CodeNots

  predicate Needs(fs: FS, e: ExpDesc) { NeedValue(fs.code, e.t) || NeedValue(fs.code, e.f) }

  /** The instructions that exp2reg adds. A pending comparison falls through to the load of
      false; any other value jumps over the loads. */
  function Suffix(fs: FS, e: ExpDesc, reg: int): seq<Instr>
  {
    if !Needs(fs, e) then []
    else (if e.k.VFalse? then [] else [Jmp(NO_JUMP)]) + [LoadBool(reg, false, true), LoadBool(reg, true, false)]
  }

  function TailJpc(fs: FS, e: ExpDesc): seq<nat>
  {
    if !Needs(fs, e) then fs.jpc else if e.k.VFalse? then [] else JumpList(fs)
  }

  /** The instructions of exp2reg, one by one. */
  function TailAt(fs: FS, e: ExpDesc, reg: int, i: nat): Instr
    requires i < |fs.code|
  {
    var final := |fs.code| + |Suffix(fs, e, reg)|;
    var pt, pf := if Needs(fs, e) then final - 1 else NO_JUMP, if Needs(fs, e) then final - 2 else NO_JUMP;
    if i in e.t then Jmp((if HasValue(fs.code, i) then final else pt) - (i + 1))
    else if i in e.f then Jmp((if HasValue(fs.code, i) then final else pf) - (i + 1))
    else if (i + 1 in e.t || i + 1 in e.f) && fs.code[i].TestSet? then PatchTest(fs.code[i], reg)
    else fs.code[i]
  }

  ghost predicate IsTail(fs: FS, e: ExpDesc, reg: int, fs': FS)
  {
    && fs' == fs.(code := fs'.code, jpc := TailJpc(fs, e)) && |fs'.code| == |fs.code| + |Suffix(fs, e, reg)|
    && (forall i :: 0 <= i < |fs.code| ==> fs'.code[i] == TailAt(fs, e, reg, i))
    && (forall i :: 0 <= i < |Suffix(fs, e, reg)| ==> fs'.code[|fs.code| + i] == Suffix(fs, e, reg)[i])
  }

  /** A finished value, or the rest of a comparison that was false. */
  predicate TailKind(fs: FS, e: ExpDesc, reg: int)
  {
    e.k == VNonReloc(reg) || (e.k == VFalse && fs.jpc == [] && Needs(fs, e))
  }

  lemma TailIntact(fs: FS, e: ExpDesc, outer: set<nat>, reg: int, fs': FS, i: nat)
    requires StateOk(fs, e, outer) && TailKind(fs, e, reg) && IsTail(fs, e, reg, fs') && i < |fs.code|
    requires i !in Own(fs, e)
    ensures Intact(fs, e, fs', InReg(reg), i)
  {
    hide WF, KindOk;
    if i !in outer { WFAt(fs.code, |fs.k|, outer + Own(fs, e), i); }
    assert fs'.code[i] == TailAt(fs, e, reg, i);
  }

  lemma TailOkAt(fs: FS, e: ExpDesc, outer: set<nat>, reg: int, fs': FS, i: nat)
    requires StateOk(fs, e, outer) && TailKind(fs, e, reg) && IsTail(fs, e, reg, fs') && 0 <= reg
    requires i < |fs'.code| && i !in outer + Own(fs', InReg(reg))
    ensures OkAt(fs'.code, |fs.k|, outer + Own(fs', InReg(reg)), i)
  {
    hide WF, KindOk;
    if i < |fs.code| {
      assert fs'.code[i] == TailAt(fs, e, reg, i);
      if i in e.t || i in e.f {
        TailJump(fs, e, outer, reg, fs', i);
      } else {
        assert i !in outer + Own(fs, e);
        TailOld(fs, e, outer, reg, fs', i);
      }
    } else {
      assert fs'.code[i] == Suffix(fs, e, reg)[i - |fs.code|];
      if !e.k.VFalse? { assert JumpList(fs)[0] == |fs.code|; assert |fs.code| in fs'.jpc; }
      TailLands(fs, e, outer, reg, fs', |fs'.code|);
    }
  }

  lemma TailLands(fs: FS, e: ExpDesc, outer: set<nat>, reg: int, fs': FS, d: nat)
    requires StateOk(fs, e, outer) && IsTail(fs, e, reg, fs') && d <= |fs'.code|
    requires (d <= |fs.code| ==> Landing(fs.code, d))
    ensures Landing(fs'.code, d)
  {
    hide WF;
    if 0 < d <= |fs.code| {
      assert fs'.code[d - 1] == TailAt(fs, e, reg, d - 1);
    } else if d > 0 {
      assert fs'.code[d - 1] == Suffix(fs, e, reg)[d - 1 - |fs.code|];
    }
  }

  lemma TailJump(fs: FS, e: ExpDesc, outer: set<nat>, reg: int, fs': FS, i: nat)
    requires StateOk(fs, e, outer) && IsTail(fs, e, reg, fs') && (i in e.t || i in e.f)
    ensures i < |fs.code| && fs'.code[i].Jmp? && fs'.code[i].sbx >= 0
    ensures var d := i + 1 + fs'.code[i].sbx; d <= |fs'.code| && Landing(fs'.code, d)
    ensures var d := i + 1 + fs'.code[i].sbx; HasValue(fs.code, i) ==> d == |fs'.code|
    ensures var d := i + 1 + fs'.code[i].sbx;
      !HasValue(fs.code, i) ==> Needs(fs, e) && d == |fs'.code| - (if i in e.t then 1 else 2)
  {
    hide StateOk, Landing;
    Listed(fs, e, outer);
    assert fs'.code[i] == TailAt(fs, e, reg, i);
    assert !HasValue(fs.code, i) ==> Needs(fs, e);
    TailLands(fs, e, outer, reg, fs', i + 1 + fs'.code[i].sbx);
  }

  lemma TailOld(fs: FS, e: ExpDesc, outer: set<nat>, reg: int, fs': FS, i: nat)
    requires StateOk(fs, e, outer) && TailKind(fs, e, reg) && IsTail(fs, e, reg, fs') && 0 <= reg && i < |fs.code|
    requires i !in outer + Own(fs, e)
    ensures OkAt(fs'.code, |fs.k|, outer + Own(fs', InReg(reg)), i)
  {
    if fs.code[i].TestSet? {
      TailOldTest(fs, e, outer, reg, fs', i);
    } else {
      assert OkAt(fs.code, |fs.k|, outer + Own(fs, e), i);
      TailSame(fs, e, outer, reg, fs', i);
      hide StateOk, IsTail, Own, Landing, TailKind;
      match fs.code[i]
      case Jmp(s) => TailLands(fs, e, outer, reg, fs', i + 1 + s);
      case LoadBool(_, _, skip) => if skip { TailLands(fs, e, outer, reg, fs', i + 2); }
      case _ =>
    }
  }

  lemma TailSame(fs: FS, e: ExpDesc, outer: set<nat>, reg: int, fs': FS, i: nat)
    requires IsTail(fs, e, reg, fs') && i < |fs.code| && i !in outer + Own(fs, e) && !fs.code[i].TestSet?
    ensures |fs.code| <= |fs'.code| && fs'.code[i] == fs.code[i] && (Paired(fs.code, i) ==> Paired(fs'.code, i))
  {
    assert fs'.code[i] == TailAt(fs, e, reg, i);
    if i + 1 < |fs.code| { assert fs'.code[i + 1] == TailAt(fs, e, reg, i + 1); }
  }

  lemma TailOldTest(fs: FS, e: ExpDesc, outer: set<nat>, reg: int, fs': FS, i: nat)
    requires StateOk(fs, e, outer) && TailKind(fs, e, reg) && IsTail(fs, e, reg, fs') && 0 <= reg && i < |fs.code|
    requires i !in outer + Own(fs, e)
    requires fs.code[i].TestSet?
    ensures OkAt(fs'.code, |fs.k|, outer + Own(fs', InReg(reg)), i)
  {
    hide WF, KindOk;
    WFAt(fs.code, |fs.k|, outer + Own(fs, e), i);
    assert fs'.code[i] == TailAt(fs, e, reg, i);
    assert fs'.code[i + 1] == TailAt(fs, e, reg, i + 1);
    assert i + 1 in fs'.jpc <==> i + 1 in fs.jpc by { TailHeld(fs, e, i + 1); }
  }

  lemma TailHeld(fs: FS, e: ExpDesc, p: nat)
    requires p < |fs.code| && (e.k.VFalse? ==> fs.jpc == [])
    ensures p in TailJpc(fs, e) <==> p in fs.jpc
  {
  }

  lemma TailEntry(fs: FS, e: ExpDesc, outer: set<nat>, reg: int, fs': FS, x: nat)
    requires StateOk(fs, e, outer) && IsTail(fs, e, reg, fs') && Entry(fs.code, x)
    ensures Entry(fs'.code, x)
  {
    hide WF;
    if x < |fs.code| { assert fs'.code[x] == TailAt(fs, e, reg, x); }
    if x > 0 { assert fs'.code[x - 1] == TailAt(fs, e, reg, x - 1); }
    if Landing(fs.code, x) { TailLands(fs, e, outer, reg, fs', x); }
  }

  lemma TailKeeps(fs: FS, e: ExpDesc, outer: set<nat>, reg: int, fs': FS)
    requires StateOk(fs, e, outer) && TailKind(fs, e, reg) && IsTail(fs, e, reg, fs') && 0 <= reg < fs.free
    ensures Keeps(fs, e, fs', InReg(reg), outer)
  {
    hide WF, OkAt, Entry, Intact, TailAt, Own, Suffix, TailJpc;
    TailWF(fs, e, outer, reg, fs');
    forall i | 0 <= i < |fs.code| && i !in Own(fs, e)
      ensures Intact(fs, e, fs', InReg(reg), i)
    {
      TailIntact(fs, e, outer, reg, fs', i);
    }
    forall x | Entry(fs.code, x) ensures Entry(fs'.code, x) { TailEntry(fs, e, outer, reg, fs', x); }
    TailLists(fs, e, outer, reg, fs');
  }

  lemma TailWF(fs: FS, e: ExpDesc, outer: set<nat>, reg: int, fs': FS)
    requires StateOk(fs, e, outer) && TailKind(fs, e, reg) && IsTail(fs, e, reg, fs') && 0 <= reg
    ensures WF(fs'.code, |fs'.k|, outer + Own(fs', InReg(reg)))
  {
    hide StateOk, WF, OkAt, Intact, TailAt, Own, Suffix, TailJpc;
    forall i | 0 <= i < |fs'.code| && i !in outer + Own(fs', InReg(reg))
      ensures OkAt(fs'.code, |fs.k|, outer + Own(fs', InReg(reg)), i)
    {
      TailOkAt(fs, e, outer, reg, fs', i);
    }
    LastLands(fs, e, outer);
    TailLands(fs, e, outer, reg, fs', |fs'.code|);
    WFIntro(fs', InReg(reg), outer);
  }

  lemma TailLists(fs: FS, e: ExpDesc, outer: set<nat>, reg: int, fs': FS)
    requires StateOk(fs, e, outer) && TailKind(fs, e, reg) && IsTail(fs, e, reg, fs')
    ensures JumpsAt(fs'.code, fs'.jpc, outer) && Distinct(fs'.jpc)
    ensures forall p :: p in outer ==> fs'.code[p].Jmp?
    ensures forall i :: 0 <= i < |fs.code| && (i in outer || i in Own(fs, e)) ==> !fs'.code[i].TestSet?
  {
    hide WF;
    DistinctAppend([|fs.code|], fs.jpc);
    forall p | 0 <= p < |fs.code| && (p in outer || p in Own(fs, e)) ensures fs'.code[p].Jmp? {
      assert fs'.code[p] == TailAt(fs, e, reg, p);
    }
    if Needs(fs, e) && !e.k.VFalse? { assert fs'.code[|fs.code|] == Suffix(fs, e, reg)[0]; }
  }

  /** A jump with a value brings it to the end in the register. */
  lemma ValueRun(q: Query, fs: FS, e: ExpDesc, outer: set<nat>, reg: int, fs': FS, p: nat, m: Machine)
    requires StateOk(fs, e, outer) && TailKind(fs, e, reg) && IsTail(fs, e, reg, fs') && 0 <= reg && q.base <= reg
    requires (p in e.t || p in e.f) && HasValue(fs.code, p) && Get(m, fs.code[p - 1].b) == q.v && q.way.Arrives?
    requires SameBelow(q.m, m, q.base) && m.trace == q.tr
    ensures var (p', m') := Runs(q, fs', outer + Own(fs', InReg(reg)), p, Wrote(fs'.code, p, m));
      Exit(q, fs', InReg(reg), p', m')
  {
    hide StateOk, Own, Run;
    TailJump(fs, e, outer, reg, fs', p);
    TailFree(fs, e, outer, reg, fs', p);
    assert fs'.code[p - 1] == TailAt(fs, e, reg, p - 1);
    NotAJump(fs, e, outer, p - 1);
    Stopped(q, fs', outer + Own(fs', InReg(reg)), |fs'.code|, Wrote(fs'.code, p, m));
    JumpRun(q, fs', outer + Own(fs', InReg(reg)), p, Wrote(fs'.code, p, m));
  }

  lemma NotAJump(fs: FS, e: ExpDesc, outer: set<nat>, i: nat)
    requires StateOk(fs, e, outer) && i < |fs.code| && fs.code[i].TestSet?
    ensures i !in e.t && i !in e.f
  {
    hide WF;
  }

  lemma TailFree(fs: FS, e: ExpDesc, outer: set<nat>, reg: int, fs': FS, p: nat)
    requires StateOk(fs, e, outer) && TailKind(fs, e, reg) && IsTail(fs, e, reg, fs') && (p in e.t || p in e.f)
    ensures p !in outer + Own(fs', InReg(reg))
  {
    hide WF;
    TailHeld(fs, e, p);
  }

  /** A jump without a value goes to the load of its boolean. */
  lemma BoolRun(q: Query, fs: FS, e: ExpDesc, outer: set<nat>, reg: int, fs': FS, p: nat, m: Machine)
    requires StateOk(fs, e, outer) && TailKind(fs, e, reg) && IsTail(fs, e, reg, fs') && 0 <= reg && q.base <= reg
    requires (p in e.t || p in e.f) && !HasValue(fs.code, p) && q.v == Bool(p in e.t) && q.way.Arrives?
    requires SameBelow(q.m, m, q.base) && m.trace == q.tr
    ensures var (p', m') := Runs(q, fs', outer + Own(fs', InReg(reg)), p, Wrote(fs'.code, p, m));
      Exit(q, fs', InReg(reg), p', m')
  {
    hide StateOk, Own, Run;
    TailJump(fs, e, outer, reg, fs', p);
    TailFree(fs, e, outer, reg, fs', p);
    assert Wrote(fs'.code, p, m) == m by { if p > 0 { assert fs'.code[p - 1] == TailAt(fs, e, reg, p - 1); } }
    var h := outer + Own(fs', InReg(reg));
    JumpRun(q, fs', h, p, m);
    LoadsRun(q, fs, e, outer, reg, fs', p in e.t, m);
  }

  lemma LoadsRun(q: Query, fs: FS, e: ExpDesc, outer: set<nat>, reg: int, fs': FS, v: bool, m: Machine)
    requires StateOk(fs, e, outer) && TailKind(fs, e, reg) && IsTail(fs, e, reg, fs') && Needs(fs, e) && q.base <= reg
    requires q.v == Bool(v) && q.way.Arrives?
    requires SameBelow(q.m, m, q.base) && m.trace == q.tr
    ensures |fs'.code| >= 2
    ensures var (p', m') := Runs(q, fs', outer + Own(fs', InReg(reg)), |fs'.code| - (if v then 1 else 2), m);
      Exit(q, fs', InReg(reg), p', m')
  {
    hide StateOk, Run, IsTail, Needs, Own;
    LoadAt(fs, e, outer, reg, fs', v);
    var h := outer + Own(fs', InReg(reg));
    StepRun(q, fs', h, |fs'.code| - (if v then 1 else 2), m);
    Stopped(q, fs', h, |fs'.code|, Put(m, reg, Bool(v)));
  }

  lemma LoadAt(fs: FS, e: ExpDesc, outer: set<nat>, reg: int, fs': FS, v: bool)
    requires StateOk(fs, e, outer) && IsTail(fs, e, reg, fs') && Needs(fs, e)
    ensures |fs'.code| >= |fs.code| + 2
    ensures var d := |fs'.code| - (if v then 1 else 2);
      fs'.code[d] == LoadBool(reg, v, !v) && d !in outer + Own(fs', InReg(reg))
  {
    hide StateOk, Needs;
    Listed(fs, e, outer);
    var d := |fs'.code| - (if v then 1 else 2);
    assert fs'.code[d] == Suffix(fs, e, reg)[d - |fs.code|];
    if d in fs'.jpc { LoadsNotHeld(fs, e, reg, fs', d); }
  }

  lemma LoadsNotHeld(fs: FS, e: ExpDesc, reg: int, fs': FS, d: nat)
    requires IsTail(fs, e, reg, fs') && d in fs'.jpc && Needs(fs, e) && (forall p :: p in fs.jpc ==> p < |fs.code|)
    ensures d <= |fs.code| && !e.k.VFalse?
  {
  }

  lemma EndRun(q: Query, fs: FS, e: ExpDesc, outer: set<nat>, reg: int, fs': FS, p: nat, m: Machine)
    requires StateOk(fs, e, outer) && TailKind(fs, e, reg) && IsTail(fs, e, reg, fs') && 0 <= reg < fs.free
    requires q.base <= reg
    requires AtEnd(fs, e.k, p) && Holds(q, fs, e.k, m) && SameBelow(q.m, m, q.base) && q.way.Arrives?
    ensures var (p', m') := Runs(q, fs', outer + Own(fs', InReg(reg)), p, Wrote(fs'.code, p, m));
      Exit(q, fs', InReg(reg), p', m')
  {
    hide StateOk, Run, Evolves, Entry;
    if e.k.VFalse? {
      LoadsRun(q, fs, e, outer, reg, fs', false, m);
      NoStoreEnd(fs, e, outer, reg, fs', m);
    } else {
      TailEnds(fs, e, reg, fs', p);
      TailKeeps(fs, e, outer, reg, fs');
      NoStore(fs', InReg(reg), outer, p, m);
      Stopped(q, fs', outer + Own(fs', InReg(reg)), p, m);
    }
  }

  lemma TailEnds(fs: FS, e: ExpDesc, reg: int, fs': FS, p: nat)
    requires IsTail(fs, e, reg, fs') && !e.k.VFalse? && (p == |fs.code| || p in fs.jpc)
    ensures p == |fs'.code| || p in fs'.jpc
  {
    if p == |fs.code| && Needs(fs, e) { assert JumpList(fs)[0] == p; }
  }

  lemma NoStoreEnd(fs: FS, e: ExpDesc, outer: set<nat>, reg: int, fs': FS, m: Machine)
    requires StateOk(fs, e, outer) && IsTail(fs, e, reg, fs')
    ensures Wrote(fs'.code, |fs.code|, m) == m
  {
    Listed(fs, e, outer);
    TailLands(fs, e, outer, reg, fs', |fs.code|);
  }

  /** What the code of an expression brings to a register, where it arrives with it. */
  function Given(q: Query): Query { q.(v := Yield(Course(q.v, q.tr, q.way)), way := Arrives(None)) }

  /** Without jumps it brings its own value. */
  lemma GivenOwn(q: Query, fs: FS, e: ExpDesc, outer: set<nat>)
    requires Good(q, fs, e, outer) && e.t == [] && e.f == []
    ensures q.way.Arrives? && Given(q) == q.(way := Arrives(None)) && Good(Given(q), fs, e, outer)
  {
    hide StateOk, Entry, Run, Own, Holds, AtEnd;
    var (p, m) := Ends(q, fs, e, outer);
    SameHolds(q, Given(q), fs, e.k, m);
  }

  /** Wherever the code of an expression goes, what it brings gets to the register. */
  lemma TailGood(q: Query, fs: FS, e: ExpDesc, outer: set<nat>, reg: int, fs': FS)
    requires Good(q, fs, e, outer) && TailKind(fs, e, reg) && IsTail(fs, e, reg, fs') && 0 <= reg < fs.free
    requires q.base <= reg
    ensures Fine(Given(q), fs, e, fs', InReg(reg), outer)
  {
    hide StateOk, Own, Run, Entry, Holds, IsTail;
    TailKeeps(fs, e, outer, reg, fs');
    OpRun(fs, e, fs', InReg(reg), outer, q.w, q.x, q.m);
    var q' := Given(q);
    var (p, m) := Ends(q, fs, e, outer);
    if p in e.t || p in e.f {
      if HasValue(fs.code, p) {
        ValueRun(q', fs, e, outer, reg, fs', p, m);
      } else {
        BoolRun(q', fs, e, outer, reg, fs', p, m);
      }
    } else {
      SameHolds(q, q', fs, e.k, m);
      EndRun(q', fs, e, outer, reg, fs', p, m);
    }
  }

  lemma SameHolds(q: Query, q': Query, fs: FS, k: Kind, m: Machine)
    requires Holds(q, fs, k, m) && q' == q.(way := q'.way)
    ensures Holds(q', fs, k, m)
  {
  }

  /** The query for a comparison that has been settled: it jumps if it is true. */
  function SettledQuery(q: Query): Query { if q.way.Arrives? && !Falsy(q.v) then q.(way := Leaves(None)) else q }

  lemma SettledFine(q: Query, fs: FS, e: ExpDesc, outer: set<nat>)
    requires Good(q, fs, e, outer) && e.k.VJmp?
    ensures Fine(SettledQuery(q), fs, e, fs, Settled(e), outer) && fs.jpc == [] && Needs(fs, Settled(e))
  {
    hide WF, Own, Run, Entry, Exit;
    var e' := Settled(e);
    CommitOp(fs, e, outer, fs, e');
    Listed(fs, e, outer);
    assert e.k.pc in e'.t && !HasValue(fs.code, e.k.pc);
    var p, m := GoesOn(q, fs, e, fs, e', outer);
    if p in e.t + e.f {
      CommitControl(fs, e, outer, fs, p);
      ExitByJump(q, fs, e, fs, e', p, m);
      assert SettledQuery(q) == q by { ChooseByJump(q, fs, e, fs, true, [], p, m); }
    } else {
      ExitHolds(q, fs, e, p, m);
      var out, m' := SettledRun(q, fs, e, outer, m);
      SettledExit(q, fs, e, outer, out, m');
    }
  }

  lemma SettledRun(q: Query, fs: FS, e: ExpDesc, outer: set<nat>, m: Machine) returns (p: nat, m': Machine)
    requires StateOk(fs, e, outer) && e.k.VJmp? && Holds(q, fs, e.k, m) && SameBelow(q.m, m, q.base)
    ensures Runs(q, fs, outer + Own(fs, Settled(e)), e.k.pc - 1, Wrote(fs.code, e.k.pc - 1, m)) == (p, m')
    ensures SameBelow(q.m, m', q.base) && m'.trace == q.tr && q.v == Bool(p == e.k.pc)
    ensures (p == e.k.pc || p == |fs.code|)
  {
    p, m' := CommitRun(q, fs, e, outer, false, m);
    assert Own(fs, Settled(e)) == Own(fs, Adds(e, false, [e.k.pc]));
  }

  lemma SettledExit(q: Query, fs: FS, e: ExpDesc, outer: set<nat>, p: nat, m: Machine)
    requires StateOk(fs, e, outer) && e.k.VJmp? && SameBelow(q.m, m, q.base) && m.trace == q.tr
    requires q.v == Bool(p == e.k.pc) && (p == e.k.pc || p == |fs.code|) && q.way.Arrives?
    ensures Exit(SettledQuery(q), fs, Settled(e), p, m)
  {
    Listed(fs, e, outer);
    hide WF;
  }

  /** exp2reg is that: patch the lists of the settled expression. */
  lemma Exp2RegIsTail(fs: FS, e: ExpDesc, outer: set<nat>, reg: int)
    requires var (fs1, e1) := Discharge2Reg(fs, e, reg);
      StateOk(fs1, Settled(e1), outer) && (e1.k.VJmp? ==> fs1.jpc == []) && (e1.k.VJmp? || e1.k.VNonReloc?)
    ensures var (fs1, e1) := Discharge2Reg(fs, e, reg); IsTail(fs1, Settled(e1), reg, Exp2Reg(fs, e, reg))
  {
    hide Discharge2Reg, WF, KindOk;
    var (fs1, e1) := Discharge2Reg(fs, e, reg);
    var e2 := Settled(e1);
    if e2.t == e2.f {
      TwiceNone(fs1, e2, outer);
      forall i | 0 <= i < |fs1.code| ensures fs1.code[i] == TailAt(fs1, e2, reg, i) { }
    } else {
      TailPatched(fs1, e2, outer, reg);
      TailEmitted(fs1, e1, reg);
      hide PatchList, LoadValues, IsTail;
      if !Needs(fs1, e2) { assert fs1.code + Suffix(fs1, e2, reg) == fs1.code; }
      assert Exp2Reg(fs, e, reg) == fs1.(code := Patched2(fs1, e2, reg), jpc := TailJpc(fs1, e2));
    }
  }

  function Patched2(fs: FS, e: ExpDesc, reg: int): seq<Instr>
  {
    var code := fs.code + Suffix(fs, e, reg);
    var final := |code|;
    var pt, pf := if Needs(fs, e) then final - 1 else NO_JUMP, if Needs(fs, e) then final - 2 else NO_JUMP;
    PatchList(PatchList(code, e.f, final, reg, pf), e.t, final, reg, pt)
  }

  lemma TailEmitted(fs: FS, e: ExpDesc, reg: int)
    requires (e.k.VJmp? ==> fs.jpc == []) && !e.k.VFalse?
    ensures var e2 := Settled(e);
      Needs(fs, e2) ==>
        LoadValues(fs, !e.k.VJmp?, reg) == fs.(code := fs.code + Suffix(fs, e2, reg), jpc := TailJpc(fs, e2))
  {
    var fs1 := if !e.k.VJmp? then Jump(fs) else fs;
    NothingToPatch(fs1.code, |fs1.code|, NO_REG, |fs1.code|);
    var fs2 := Emit(fs1, LoadBool(reg, false, true));
    NothingToPatch(fs2.code, |fs2.code|, NO_REG, |fs2.code|);
    hide PatchList, Needs;
    if Needs(fs, Settled(e)) {
      assert LoadValues(fs, !e.k.VJmp?, reg).jpc == TailJpc(fs, Settled(e));
      assert LoadValues(fs, !e.k.VJmp?, reg).code == fs.code + Suffix(fs, Settled(e), reg);
    }
  }

  lemma TailPatched(fs: FS, e: ExpDesc, outer: set<nat>, reg: int)
    requires StateOk(fs, e, outer)
    ensures IsTail(fs, e, reg, fs.(code := Patched2(fs, e, reg), jpc := TailJpc(fs, e)))
  {
    hide StateOk, Needs, Suffix, TailAt, TailJpc, Patched2;
    var code := Patched2(fs, e, reg);
    PatchedSize(fs, e, reg);
    forall i | 0 <= i < |fs.code| ensures code[i] == TailAt(fs, e, reg, i) { TailPatchedAt(fs, e, outer, reg, i); }
    forall i | 0 <= i < |Suffix(fs, e, reg)| ensures code[|fs.code| + i] == Suffix(fs, e, reg)[i] {
      TailPatchedAt(fs, e, outer, reg, |fs.code| + i);
    }
  }

  lemma PatchedSize(fs: FS, e: ExpDesc, reg: int)
    ensures |Patched2(fs, e, reg)| == |fs.code| + |Suffix(fs, e, reg)|
  {
    hide Suffix;
  }

  lemma TailPatchedAt(fs: FS, e: ExpDesc, outer: set<nat>, reg: int, i: nat)
    requires StateOk(fs, e, outer) && i < |fs.code + Suffix(fs, e, reg)|
    ensures Patched2(fs, e, reg)[i] == if i < |fs.code| then TailAt(fs, e, reg, i)
      else (fs.code + Suffix(fs, e, reg))[i]
  {
    hide StateOk, Needs, Suffix;
    Listed(fs, e, outer);
    TwiceApart(fs, e, outer);
    var code := fs.code + Suffix(fs, e, reg);
    var final := |code|;
    var pf := if Needs(fs, e) then final - 2 else NO_JUMP;
    var c1 := PatchList(code, e.f, final, reg, pf);
    assert c1[i] == PatchAt(code, e.f, final, reg, pf, i);
    if i > 0 { assert c1[i - 1] == PatchAt(code, e.f, final, reg, pf, i - 1); }
    assert HasValue(c1, i) == HasValue(code, i) || i in e.f;
  }

  lemma TwiceApart(fs: FS, e: ExpDesc, outer: set<nat>)
    requires StateOk(fs, e, outer)
    ensures forall p :: p in e.t ==> p !in e.f
  {
    hide WF, KindOk;
  }

  /** The first part of exp2reg answers the query. */
  lemma SettledGood(q: Query, fs: FS, e: ExpDesc, outer: set<nat>, reg: int)
    requires Good(q, fs, e, outer) && q.base <= reg < fs.free && 0 <= reg
    ensures var (fs1, e1) := Discharge2Reg(fs, e, reg);
      && Fine(if e.k.VJmp? then SettledQuery(q) else q, fs, e, fs1, Settled(e1), outer)
      && fs1.free == fs.free && TailKind(fs1, Settled(e1), reg)
      && (e1.k.VJmp? ==> fs1.jpc == []) && (e1.k.VJmp? || e1.k.VNonReloc?)
  {
    hide Keeps, StateOk, Means, Entry, Discharge2Reg, Needs;
    var (fs1, e1) := Discharge2Reg(fs, e, reg);
    if e.k.VJmp? {
      JmpStays(fs, e, reg);
      SettledFine(q, fs, e, outer);
    } else {
      Discharge2RegFine(q, fs, e, outer, reg);
    }
  }

  lemma VarsLists(fs: FS, e: ExpDesc)
    ensures var (fs1, e1) := DischargeVars(fs, e); e1.t == e.t && e1.f == e.f
  {
  }

  /** exp2reg. */
  lemma Exp2RegGood(q: Query, fs: FS, e: ExpDesc, outer: set<nat>, reg: int)
    requires Good(q, fs, e, outer) && q.base <= reg < fs.free && 0 <= reg
    ensures Fine(Given(q), fs, e, Exp2Reg(fs, e, reg), InReg(reg), outer)
    ensures Exp2Reg(fs, e, reg).free == fs.free
  {
    hide Keeps, StateOk, Means, Entry, Discharge2Reg, Exp2Reg, IsTail, Needs;
    var (fs1, e1) := Discharge2Reg(fs, e, reg);
    SettledGood(q, fs, e, outer, reg);
    var e2 := Settled(e1);
    var fs' := Exp2Reg(fs, e, reg);
    Exp2RegIsTail(fs, e, outer, reg);
    var q' := if e.k.VJmp? then SettledQuery(q) else q;
    TailGood(q', fs1, e2, outer, reg, fs');
    assert Given(q') == Given(q);
    KeepsTrans(fs, e, fs1, e2, fs', InReg(reg), outer);
    TailFreeSame(fs1, e2, reg, fs');
  }

  lemma TailFreeSame(fs: FS, e: ExpDesc, reg: int, fs': FS)
    requires IsTail(fs, e, reg, fs')
    ensures fs'.free == fs.free
  {
  }

  lemma JmpStays(fs: FS, e: ExpDesc, reg: int)
    requires e.k.VJmp?
    ensures Discharge2Reg(fs, e, reg) == (fs, e)
  {
  }

  lemma VarsReserved(q: Query, fs: FS, e: ExpDesc, outer: set<nat>)
    requires Good(q, fs, e, outer)
    ensures var (fs1, e1) := DischargeVars(fs, e); Fine(q, fs, e, Reserve(fs1), e1, outer) && fs1.free == fs.free
  {
    hide Keeps, Good, DischargeVars;
    var (fs1, e1) := DischargeVars(fs, e);
    DischargeVarsFine(q, fs, e, outer);
    ReserveFine(q, fs1, e1, outer);
    FineTrans(q, fs, e, fs1, e1, Reserve(fs1), e1, outer);
  }

  /** luaK_exp2nextreg, for an expression that holds no temporary register. */
  lemma Exp2NextRegGood(q: Query, fs: FS, e: ExpDesc, outer: set<nat>)
    requires Good(q, fs, e, outer) && (e.k.VNonReloc? ==> e.k.r < fs.nact) && q.base <= fs.free
    ensures var (fs', e') := Exp2NextReg(fs, e);
      Fine(Given(q), fs, e, fs', e', outer) && e' == InReg(fs.free) && fs'.free == fs.free + 1
  {
    hide Keeps, StateOk, Means, Entry, Exp2Reg, Given;
    var (fs1, e1) := DischargeVars(fs, e);
    DischargeVarsFine(q, fs, e, outer);
    VarsReg(q, fs, e, outer);
    KeepsFree(fs1, e1, outer);
    VarsReserved(q, fs, e, outer);
    Exp2RegGood(q, Reserve(fs1), e1, outer, fs.free);
    var (fs', e') := Exp2NextReg(fs, e);
    KeepsTrans(fs, e, Reserve(fs1), e1, fs', e', outer);
  }

  /** Where an operand is: in a constant, in a local variable, or in the first free register,
      which is then taken. */
  predicate OperandAt(fs: FS, fs': FS, e: ExpDesc)
  {
    && e.t == [] && e.f == [] && fs'.nact == fs.nact
    && ((e.k.VK? && e.k.i <= MAXINDEXRK && fs'.free == fs.free)
       || (e.k.VNonReloc? && e.k.r < fs.nact && fs'.free == fs.free)
       || (e.k == VNonReloc(fs.free) && fs'.free == fs.free + 1))
  }

  /** luaK_exp2anyreg. */
  lemma Exp2AnyRegGood(q: Query, fs: FS, e: ExpDesc, outer: set<nat>)
    requires Good(q, fs, e, outer) && (e.k.VNonReloc? ==> e.k.r < fs.nact) && q.base <= fs.free
    ensures var (fs', e') := Exp2AnyReg(fs, e);
      Fine(Given(q), fs, e, fs', e', outer) && OperandAt(fs, fs', e')
  {
    hide Keeps, StateOk, Means, Entry, Exp2NextReg, Exp2Reg, Given;
    var (fs1, e1) := DischargeVars(fs, e);
    DischargeVarsFine(q, fs, e, outer);
    VarsReg(q, fs, e, outer);
    if e1.k.VNonReloc? && e1.t == e1.f {
      TwiceNone(fs1, e1, outer);
      VarsLists(fs, e);
      GivenOwn(q, fs1, e1, outer);
      NactKept(q, fs, e, fs1, e1, outer);
    } else {
      Exp2NextRegGood(q, fs1, e1, outer);
      var (fs', e') := Exp2NextReg(fs1, e1);
      KeepsTrans(fs, e, fs1, e1, fs', e', outer);
      NactKept(Given(q), fs, e, fs', e', outer);
    }
  }

  lemma NactKept(q: Query, fs: FS, e: ExpDesc, fs': FS, e': ExpDesc, outer: set<nat>)
    requires Fine(q, fs, e, fs', e', outer)
    ensures fs'.nact == fs.nact
  {
  }

  lemma TwiceNone(fs: FS, e: ExpDesc, outer: set<nat>)
    requires StateOk(fs, e, outer) && e.t == e.f
    ensures e.t == []
  {
    hide WF, KindOk;
    if e.t != [] { HasMember(e.t); }
  }

  lemma HasMember(l: seq<nat>)
    requires l != []
    ensures exists x :: x in l
  {
    assert l[0] in l;
  }

  predicate Literal(k: Kind) { k.VKNum? || k.VTrue? || k.VFalse? }

  /** luaK_exp2val. */
  lemma Exp2ValGood(q: Query, fs: FS, e: ExpDesc, outer: set<nat>)
    requires Good(q, fs, e, outer) && (e.k.VNonReloc? ==> e.k.r < fs.nact) && q.base <= fs.free
    ensures var (fs', e') := Exp2Val(fs, e);
      && Fine(Given(q), fs, e, fs', e', outer) && e'.t == [] && e'.f == []
      && (OperandAt(fs, fs', e') || (!e'.k.VNonReloc? && fs'.free == fs.free && fs'.nact == fs.nact))
  {
    hide Keeps, StateOk, Means, Entry, Exp2AnyReg, Given;
    if e.t != e.f {
      Exp2AnyRegGood(q, fs, e, outer);
    } else {
      TwiceNone(fs, e, outer);
      VarsLists(fs, e);
      var (fs1, e1) := DischargeVars(fs, e);
      DischargeVarsFine(q, fs, e, outer);
      GivenOwn(q, fs1, e1, outer);
      VarsReg(q, fs, e, outer);
    }
  }

  /** The literal becomes a constant. */
  lemma LiteralFine(q: Query, fs: FS, e: ExpDesc, outer: set<nat>)
    requires Good(q, fs, e, outer) && Literal(e.k)
    ensures Fine(q, fs, e, AddK(fs, ConstValue(e.k)), e.(k := VK(KIndex(fs, ConstValue(e.k)))), outer)
  {
    hide Keeps;
    var v := ConstValue(e.k);
    AddKFine(q, fs, e, outer, v);
    var fs1, e1 := AddK(fs, v), e.(k := VK(KIndex(fs, v)));
    assert Own(fs1, e1) == Own(fs1, e);
    hide WF;
    SameCode(q, fs1, e, fs1, e1, outer);
    hide Good;
    FineTrans(q, fs, e, fs1, e, fs1, e1, outer);
  }

  /** luaK_exp2RK. */
  lemma Exp2RKGood(q: Query, fs: FS, e: ExpDesc, outer: set<nat>)
    requires Good(q, fs, e, outer) && (e.k.VNonReloc? ==> e.k.r < fs.nact) && q.base <= fs.free
    ensures var (fs', e') := Exp2RK(fs, e);
      Fine(Given(q), fs, e, fs', e', outer) && OperandAt(fs, fs', e')
  {
    hide Keeps, Good, Exp2Val, Exp2AnyReg, AddK;
    var (fs1, e1) := Exp2Val(fs, e);
    var q1 := Given(q);
    Exp2ValGood(q, fs, e, outer);
    var (fs', e') := Exp2RK(fs, e);
    if Literal(e1.k) && |fs1.k| <= MAXINDEXRK {
      LiteralFine(q1, fs1, e1, outer);
      AddKFree(fs1, ConstValue(e1.k));
      KIndexBound(fs1, ConstValue(e1.k));
      GoodKeepsTrans(q, q1, fs, e, fs1, e1, fs', e', outer);
    } else if e1.k.VK? && e1.k.i <= MAXINDEXRK {
    } else if e1.k.VNonReloc? {
      AnyRegIdle(fs1, e1);
    } else {
      Exp2AnyRegGood(q1, fs1, e1, outer);
      GoodKeepsTrans(q, q1, fs, e, fs1, e1, fs', e', outer);
    }
  }

  /** No jump that waits for the end of the code carries a value. */
  ghost predicate HoldsNothing(fs: FS) { forall p :: p in fs.jpc ==> !HasValue(fs.code, p) }

  lemma Emptied(fs: FS, p: nat, m: Machine)
    requires HoldsNothing(fs)
    ensures Holding(fs, p, m).None?
  {
  }

  lemma Discharge2RegEmpties(fs: FS, e: ExpDesc, outer: set<nat>, reg: int)
    requires StateOk(fs, e, outer) && (e.k.VNonReloc? ==> e.k.r != reg) && (e.k.VLocal? ==> e.k.r != reg)
    ensures Discharge2Reg(fs, e, reg).0.jpc == []
  {
    hide WF, PatchList;
  }

  lemma TailEmpties(fs: FS, e: ExpDesc, outer: set<nat>, reg: int, fs': FS)
    requires StateOk(fs, e, outer) && IsTail(fs, e, reg, fs') && fs.jpc == []
    ensures HoldsNothing(fs')
  {
    LastLands(fs, e, outer);
    hide StateOk, Needs;
    var n := |fs.code|;
    if n > 0 { assert fs'.code[n - 1] == TailAt(fs, e, reg, n - 1); }
    assert forall p :: p in fs'.jpc ==> p == n;
  }

  /** When a value goes to a new register, nothing is held any more. */
  lemma Exp2RegEmpties(q: Query, fs: FS, e: ExpDesc, outer: set<nat>, reg: int)
    requires Good(q, fs, e, outer) && q.base <= reg < fs.free && 0 <= reg
    requires (e.k.VNonReloc? ==> e.k.r != reg) && (e.k.VLocal? ==> e.k.r != reg)
    ensures HoldsNothing(Exp2Reg(fs, e, reg))
  {
    hide Keeps, StateOk, Means, Entry, Discharge2Reg, Exp2Reg, IsTail, Needs, HoldsNothing;
    var (fs1, e1) := Discharge2Reg(fs, e, reg);
    SettledGood(q, fs, e, outer, reg);
    Discharge2RegEmpties(fs, e, outer, reg);
    Exp2RegIsTail(fs, e, outer, reg);
    TailEmpties(fs1, Settled(e1), outer, reg, Exp2Reg(fs, e, reg));
  }

  lemma NextRegEmpties(q: Query, fs: FS, e: ExpDesc, outer: set<nat>)
    requires Good(q, fs, e, outer) && (e.k.VNonReloc? ==> e.k.r < fs.nact) && q.base <= fs.free
    ensures HoldsNothing(Exp2NextReg(fs, e).0) && Exp2NextReg(fs, e).0.free == fs.free + 1
  {
    hide Keeps, StateOk, Means, Entry, Exp2Reg, HoldsNothing;
    var (fs1, e1) := DischargeVars(fs, e);
    DischargeVarsFine(q, fs, e, outer);
    VarsReg(q, fs, e, outer);
    KeepsFree(fs1, e1, outer);
    VarsReserved(q, fs, e, outer);
    Exp2RegEmpties(q, Reserve(fs1), e1, outer, fs.free);
    Exp2RegGood(q, Reserve(fs1), e1, outer, fs.free);
  }

  /** An operand that takes a register holds nothing; for any other nothing has changed. */
  lemma AnyRegEmpties(q: Query, fs: FS, e: ExpDesc, outer: set<nat>)
    requires Good(q, fs, e, outer) && (e.k.VNonReloc? ==> e.k.r < fs.nact) && q.base <= fs.free
    ensures var fs' := Exp2AnyReg(fs, e).0;
      || (HoldsNothing(fs') && fs'.free == fs.free + 1)
      || (fs' == fs && e.t == [] && e.f == [] && (e.k.VLocal? || e.k.VNonReloc?))
  {
    hide Keeps, StateOk, Means, Entry, Exp2NextReg, Exp2Reg, HoldsNothing;
    var (fs1, e1) := DischargeVars(fs, e);
    DischargeVarsFine(q, fs, e, outer);
    VarsReg(q, fs, e, outer);
    if e1.k.VNonReloc? && e1.t == e1.f { TwiceNone(fs1, e1, outer); } else { NextRegEmpties(q, fs1, e1, outer); }
  }

  lemma RKEmpties(q: Query, fs: FS, e: ExpDesc, outer: set<nat>)
    requires Good(q, fs, e, outer) && (e.k.VNonReloc? ==> e.k.r < fs.nact) && q.base <= fs.free
    ensures var fs' := Exp2RK(fs, e).0;
      || (HoldsNothing(fs') && fs'.free == fs.free + 1)
      || (fs' == fs.(k := fs'.k) && e.t == [] && e.f == [] && NoHoles(e.k) && !e.k.VUpval?)
  {
    hide Keeps, StateOk, Means, Entry, Exp2AnyReg, AddK, DischargeVars, HoldsNothing;
    var (fs1, e1) := Exp2Val(fs, e);
    Exp2ValGood(q, fs, e, outer);
    if e.t != e.f {
      AnyRegEmpties(q, fs, e, outer);
      RKAfterReg(q, fs, e, outer);
    } else {
      TwiceNone(fs, e, outer);
      VarsEmpty(fs, e, outer);
      VarsReg(q, fs, e, outer);
      if !(Literal(e1.k) && |fs1.k| <= MAXINDEXRK) && !(e1.k.VK? && e1.k.i <= MAXINDEXRK) {
        AnyRegEmpties(Given(q), fs1, e1, outer);
      }
      AddKOnly(fs1, if Literal(e1.k) then ConstValue(e1.k) else Nil);
    }
  }

  /** An expression with jumps is in a register after luaK_exp2val. */
  lemma RKAfterReg(q: Query, fs: FS, e: ExpDesc, outer: set<nat>)
    requires Good(q, fs, e, outer) && (e.k.VNonReloc? ==> e.k.r < fs.nact) && q.base <= fs.free && e.t != e.f
    ensures Exp2RK(fs, e) == Exp2AnyReg(fs, e)
  {
    hide Keeps, StateOk, Means, Entry, Exp2NextReg, Exp2Reg;
    var (fs1, e1) := DischargeVars(fs, e);
    DischargeVarsFine(q, fs, e, outer);
    VarsLists(fs, e);
    VarsReg(q, fs, e, outer);
    var (fs2, e2) := Exp2AnyReg(fs, e);
    NextRegIs(fs1, e1);
    AnyRegIdle(fs2, e2);
  }

  lemma NextRegIs(fs: FS, e: ExpDesc)
    ensures Exp2NextReg(fs, e).1.k.VNonReloc? && Exp2NextReg(fs, e).1.t == [] && Exp2NextReg(fs, e).1.f == []
  {
    hide Exp2Reg;
  }

  lemma VarsEmpty(fs: FS, e: ExpDesc, outer: set<nat>)
    requires StateOk(fs, e, outer)
    ensures var (fs', e') := DischargeVars(fs, e);
      && e'.t == e.t && e'.f == e.f && !e'.k.VLocal?
      && ((fs'.jpc == [] && e'.k.VReloc?) || (fs' == fs && (e'.k == e.k || (e.k.VLocal? && e'.k.VNonReloc?))))
  {
    hide WF, PatchList;
  }

  lemma AddKOnly(fs: FS, v: Value)
    ensures AddK(fs, v) == fs.(k := AddK(fs, v).k)
  {
  }

  /** What is held when an operand is in place. */
  lemma PassesOn(q: Query, fs: FS, e: ExpDesc, outer: set<nat>)
    requires Good(q, fs, e, outer) && (e.k.VNonReloc? ==> e.k.r < fs.nact) && q.base <= fs.free
    ensures var (fs', e') := Exp2RK(fs, e); var (p, m) := Ends(q, fs', e', outer);
      if fs' == fs.(k := fs'.k) then q.way.Arrives? && Holding(fs', p, m) == Holding(fs, p, m)
        && (p, m) == Ends(q, fs, e, outer)
      else Holding(fs', p, m).None?
  {
    hide Keeps, StateOk, Entry, Run, Exit, Exp2RK, HoldsNothing, Holds, AtEnd;
    var (fs', e') := Exp2RK(fs, e);
    Exp2RKGood(q, fs, e, outer);
    RKEmpties(q, fs, e, outer);
    var (p', m') := Ends(q, fs', e', outer);
    if fs' == fs.(k := fs'.k) {
      var p, m := GoesOn(q, fs, e, fs', e', outer);
      ExitHolds(q, fs, e, p, m);
      Stops(q, fs, e, fs', e', outer, p, m);
    } else {
      Emptied(fs', p', m');
    }
  }

  lemma GoodKeepsTrans(q: Query, q1: Query, fs: FS, e: ExpDesc, fs1: FS, e1: ExpDesc, fs2: FS, e2: ExpDesc,
      outer: set<nat>)
    requires Good(q, fs, e, outer) && Keeps(fs, e, fs1, e1, outer) && Fine(q1, fs1, e1, fs2, e2, outer)
    ensures Fine(q1, fs, e, fs2, e2, outer)
  {
    hide Keeps, StateOk, Means;
    KeepsTrans(fs, e, fs1, e1, fs2, e2, outer);
  }

  lemma AddKFree(fs: FS, v: Value)
    ensures AddK(fs, v).free == fs.free && AddK(fs, v).nact == fs.nact
  {
  }

  lemma KIndexBound(fs: FS, v: Value)
    ensures KIndex(fs, v) <= |fs.k|
  {
  }

  lemma AnyRegIdle(fs: FS, e: ExpDesc)
    requires e.k.VNonReloc? && e.t == e.f
    ensures Exp2AnyReg(fs, e) == (fs, e)
  {
  }
}

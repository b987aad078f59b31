/** Conditional jumps out of an expression: jumponcond, goiftrue and goiffalse. */
module CodeJumps {
  import opened Base
  import opened LuaVm
  import opened CodeGen
  import opened CodeFlow
  import opened CodeShape
  import opened CodeMeaning
  import opened CodeRegs

  /** A run that stopped at `p`: it left by a jump, or the value is true or false as wanted. */
  ghost predicate ExitTo(q: Query, fs: FS, e: ExpDesc, want: bool, p: nat, m: Machine)
  {
    && SameBelow(q.m, m, q.base) && m.trace == q.tr
    && (if p in e.t then !Falsy(q.v) && Brings(q, fs.code, p, m)
        else if p in e.f then Falsy(q.v) && Brings(q, fs.code, p, m)
        else (p == |fs.code| || p in fs.jpc) && Falsy(q.v) != want && q.way.Arrives?)
  }

  ghost predicate Chooses(q: Query, fs: FS, e: ExpDesc, outer: set<nat>, want: bool)
  {
    && StateOk(fs, e, outer) && Entry(fs.code, q.x) && e.k.VTrue?
    && var (p, m) := Ends(q, fs, e, outer); ExitTo(q, fs, e, want, p, m)
  }

  /** The jumps `l` are for the values that are not wanted. */
  function Adds(e: ExpDesc, want: bool, l: seq<nat>): ExpDesc
  {
    if want then ExpDesc(VTrue, e.t, e.f + l) else ExpDesc(VTrue, e.t + l, e.f)
  }

  /** What the code of an expression ends in, by its kind. */
  function EndKind(fs: FS, k: Kind): Ending
  {
    match k
    case VTrue => EndsTrue
    case VFalse => EndsFalse
    case VK(_) => EndsConstant
    case VKNum(_) => EndsConstant
    case VJmp(_) => EndsTest
    case VReloc(pc) => if pc < |fs.code| && fs.code[pc].Not? then EndsTest else EndsValue
    case _ => EndsValue
  }

  /** The query for the expression with one more test at its end. */
  function Tested(q: Query, end: Ending, want: bool): Query
  {
    if q.way.Leaves? then q else q.(way := TurnEnd(end, want, q.v, q.way.held))
  }

  lemma ChooseByJump(q: Query, fs: FS, e: ExpDesc, fs': FS, want: bool, l: seq<nat>, p: nat, m: Machine)
    requires Exit(q, fs, e, p, m) && p in e.t + e.f && SameControl(fs.code, fs'.code, p) && p !in l
    ensures ExitTo(q, fs', Adds(e, want, l), want, p, m) && q.way.Leaves?
  {
  }

  /** At the end of the expression, one more test leads to the new jump `j` or past it. */
  lemma ChooseAtEnd(q: Query, fs: FS, e: ExpDesc, want: bool, j: nat, p: nat, m: Machine)
    requires SameBelow(q.m, m, q.base) && m.trace == q.tr && j !in e.t && j !in e.f && |fs.code| !in e.t
    requires |fs.code| !in e.f && j < |fs.code|
    requires if Falsy(q.v) == want then p == j && Brings(q, fs.code, j, m) else p == |fs.code| && q.way.Arrives?
    ensures ExitTo(q, fs, Adds(e, want, [j]), want, p, m)
  {
  }

  /** A negation is tested without computing it. */
  lemma NotTestChooses(q: Query, fs: FS, e: ExpDesc, outer: set<nat>, want: bool)
    requires Good(q, fs, e, outer) && e.k.VReloc? && fs.code[e.k.pc].Not?
    ensures var fs' := fs.(code := fs.code[..e.k.pc] + [Test(fs.code[e.k.pc].b, want), Jmp(NO_JUMP)]);
      && Chooses(Tested(q, EndsTest, want), fs', Adds(e, want, [|fs.code|]), outer, want)
      && Keeps(fs, e, fs', Adds(e, want, [|fs.code|]), outer)
  {
    hide WF, Own, Run, Entry, Exit, ExitTo;
    var fs' := fs.(code := fs.code[..e.k.pc] + [Test(fs.code[e.k.pc].b, want), Jmp(NO_JUMP)]);
    var e' := Adds(e, want, [|fs.code|]);
    NotTestOp(fs, e, outer, want, e');
    Listed(fs, e, outer);
    var p, m := GoesOn(q, fs, e, fs', e', outer);
    if p in e.t + e.f {
      ChooseByJump(q, fs, e, fs', want, [|fs.code|], p, m);
    } else {
      ExitHolds(q, fs, e, p, m);
      var out := NotTestRun(q, fs, e, outer, want, m);
      ChooseAtEnd(Tested(q, EndsTest, want), fs', e, want, |fs.code|, out, m);
    }
  }

  lemma NotTestRun(q: Query, fs: FS, e: ExpDesc, outer: set<nat>, want: bool, m: Machine) returns (p: nat)
    requires StateOk(fs, e, outer) && e.k.VReloc? && fs.code[e.k.pc].Not? && Holds(q, fs, e.k, m)
    ensures var fs', e' := fs.(code := fs.code[..e.k.pc] + [Test(fs.code[e.k.pc].b, want), Jmp(NO_JUMP)]),
      Adds(e, want, [|fs.code|]);
      Runs(q, fs', outer + Own(fs', e'), e.k.pc, Wrote(fs'.code, e.k.pc, m)) == (p, m)
    ensures if Falsy(q.v) == want then p == |fs.code| else p == |fs.code| + 1
    ensures q.v.Bool?
  {
    var fs', e' := fs.(code := fs.code[..e.k.pc] + [Test(fs.code[e.k.pc].b, want), Jmp(NO_JUMP)]),
      Adds(e, want, [|fs.code|]);
    HoleStore(fs, e, outer, e.k.pc, m);
    hide WF;
    assert e.k.pc !in outer + Own(fs', e');
    StepRun(q, fs', outer + Own(fs', e'), e.k.pc, m);
    p := if Falsy(q.v) == want then |fs.code| else |fs.code| + 1;
    assert |fs.code| in Own(fs', e');
  }

  /** The value in a register is tested; the jump takes the value along. */
  lemma TestChooses(q: Query, fs: FS, e: ExpDesc, outer: set<nat>, end: Ending, want: bool)
    requires Good(q, fs, e, outer) && fs.jpc == [] && e.k.VNonReloc? && !Untested(end, want) && !end.EndsTest?
    ensures var fs' := fs.(code := fs.code + [TestSet(NO_REG, e.k.r, !want), Jmp(NO_JUMP)]);
      && Chooses(Tested(q, end, want), fs', Adds(e, want, [|fs.code| + 1]), outer, want)
      && Keeps(fs, e, fs', Adds(e, want, [|fs.code| + 1]), outer)
  {
    hide StateOk, Own, Run, Entry, Exit, ExitTo;
    var i := TestSet(NO_REG, e.k.r, !want);
    var fs', e' := fs.(code := fs.code + [i, Jmp(NO_JUMP)]), Adds(e, want, [|fs.code| + 1]);
    AppendTestOp(fs, e, outer, i, e');
    Listed(fs, e, outer);
    var p, m := GoesOn(q, fs, e, fs', e', outer);
    if p in e.t + e.f {
      ChooseByJump(q, fs, e, fs', want, [|fs.code| + 1], p, m);
    } else {
      ExitHolds(q, fs, e, p, m);
      var out := TestRun(q, fs, e, outer, want, m);
      ChooseAtEnd(Tested(q, end, want), fs', e, want, |fs.code| + 1, out, m);
    }
  }

  lemma TestRun(q: Query, fs: FS, e: ExpDesc, outer: set<nat>, want: bool, m: Machine) returns (p: nat)
    requires StateOk(fs, e, outer) && fs.jpc == [] && e.k.VNonReloc? && Holds(q, fs, e.k, m)
    ensures var fs', e' := fs.(code := fs.code + [TestSet(NO_REG, e.k.r, !want), Jmp(NO_JUMP)]),
      Adds(e, want, [|fs.code| + 1]);
      Runs(q, fs', outer + Own(fs', e'), |fs.code|, Wrote(fs'.code, |fs.code|, m)) == (p, m)
    ensures if Falsy(q.v) == want then p == |fs.code| + 1 else p == |fs.code| + 2
  {
    var fs', e' := fs.(code := fs.code + [TestSet(NO_REG, e.k.r, !want), Jmp(NO_JUMP)]), Adds(e, want, [|fs.code| + 1]);
    Listed(fs, e, outer);
    hide StateOk;
    assert |fs.code| !in outer + Own(fs', e');
    StepRun(q, fs', outer + Own(fs', e'), |fs.code|, m);
    p := if Falsy(q.v) == want then |fs.code| + 1 else |fs.code| + 2;
    assert |fs.code| + 1 in Own(fs', e');
  }

  /** A literal with the wanted truth needs no jump. */
  lemma ConstChooses(q: Query, fs: FS, e: ExpDesc, outer: set<nat>, want: bool)
    requires Good(q, fs, e, outer) && Proper(fs, e)
    requires (if want then e.k.VK? || e.k.VKNum? || e.k.VTrue? else e.k.VFalse?)
    ensures Tested(q, EndKind(fs, e.k), want) == q && Ends(q, fs, Adds(e, want, []), outer) == Ends(q, fs, e, outer)
    ensures Chooses(q, fs, Adds(e, want, []), outer, want) && Keeps(fs, e, fs, Adds(e, want, []), outer)
  {
    var e' := Adds(e, want, []);
    assert e'.t == e.t && e'.f == e.f;
    assert Own(fs, e') == Own(fs, e);
    KeepsSelf(fs, e, fs, e', outer);
  }

  /** For the other literals the code always jumps. The jumps to here go along, each with the
      value it carries, which is that of something else. */
  lemma JoinChooses(q: Query, fs: FS, e: ExpDesc, outer: set<nat>, want: bool)
    requires Good(q, fs, e, outer) && Tracks(q, fs, e, outer) && (if want then e.k.VFalse? else e.k.VTrue?)
    ensures Chooses(Tested(q, EndKind(fs, e.k), want), Jump(fs), Adds(e, want, JumpList(fs)), outer, want)
    ensures Tested(q, EndKind(fs, e.k), want).way.Leaves?
    ensures Keeps(fs, e, Jump(fs), Adds(e, want, JumpList(fs)), outer)
  {
    hide WF, Own, Run, Entry, Exit;
    var fs', e' := Jump(fs), Adds(e, want, JumpList(fs));
    JoinKeeps(fs, e, outer, want);
    Listed(fs, e, outer);
    var p, m := GoesOn(q, fs, e, fs', e', outer);
    if p in e.t + e.f {
      ChooseByJump(q, fs, e, fs', want, JumpList(fs), p, m);
    } else {
      ExitHolds(q, fs, e, p, m);
      assert p in JumpList(fs) by { if p == |fs.code| { assert JumpList(fs)[0] == p; } }
      OwnJoined(fs, e, want, p);
      NoStore(fs', e', outer, p, m);
      assert Runs(q, fs', outer + Own(fs', e'), p, m) == (p, m) by { Stopped(q, fs', outer + Own(fs', e'), p, m); }
      assert Carried(fs'.code, p, m) == Holding(fs, p, m);
    }
  }

  lemma OwnJoined(fs: FS, e: ExpDesc, want: bool, p: nat)
    requires p in JumpList(fs)
    ensures p in Own(Jump(fs), Adds(e, want, JumpList(fs)))
  {
  }

  lemma JoinKeeps(fs: FS, e: ExpDesc, outer: set<nat>, want: bool)
    requires StateOk(fs, e, outer) && NoHoles(e.k) && (e.k.VTrue? || e.k.VFalse?)
    ensures Keeps(fs, e, Jump(fs), Adds(e, want, JumpList(fs)), outer)
  {
    var k := e.(k := VTrue);
    assert Own(fs, k) == Own(fs, e);
    KeepsSelf(fs, e, fs, k, outer);
    JoinOp(fs, k, outer, Adds(e, want, JumpList(fs)));
    hide StateOk, Own;
    KeepsTrans(fs, e, fs, k, Jump(fs), Adds(e, want, JumpList(fs)), outer);
  }

  /** A pending comparison is ready to jump, once it jumps on the right outcome. */
  lemma CommitChooses(q: Query, fs: FS, e: ExpDesc, outer: set<nat>, want: bool)
    requires Good(q, fs, e, outer) && e.k.VJmp?
    ensures var fs' := if want then InvertJump(fs, e.k.pc) else fs;
      && Chooses(Tested(q, EndsTest, want), fs', Adds(e, want, [e.k.pc]), outer, want)
      && Keeps(fs, e, fs', Adds(e, want, [e.k.pc]), outer)
  {
    hide WF, Own, Run, Entry, Exit, ExitTo;
    var fs', e' := if want then InvertJump(fs, e.k.pc) else fs, Adds(e, want, [e.k.pc]);
    CommitOp(fs, e, outer, fs', e');
    Listed(fs, e, outer);
    var p, m := GoesOn(q, fs, e, fs', e', outer);
    if p in e.t + e.f {
      CommitControl(fs, e, outer, fs', p);
      ChooseByJump(q, fs, e, fs', want, [e.k.pc], p, m);
    } else {
      ExitHolds(q, fs, e, p, m);
      var out, m' := CommitRun(q, fs, e, outer, want, m);
      ChooseAtEnd(Tested(q, EndsTest, want), fs', e, want, e.k.pc, out, m');
    }
  }

  lemma CommitControl(fs: FS, e: ExpDesc, outer: set<nat>, fs': FS, p: nat)
    requires StateOk(fs, e, outer) && e.k.VJmp? && (fs' == fs || fs' == InvertJump(fs, e.k.pc)) && p in e.t + e.f
    ensures SameControl(fs.code, fs'.code, p) && p != e.k.pc
  {
    hide WF;
  }

  lemma CommitRun(q: Query, fs: FS, e: ExpDesc, outer: set<nat>, want: bool, m: Machine) returns (p: nat, m': Machine)
    requires StateOk(fs, e, outer) && e.k.VJmp? && Holds(q, fs, e.k, m) && SameBelow(q.m, m, q.base)
    ensures var fs', e' := if want then InvertJump(fs, e.k.pc) else fs, Adds(e, want, [e.k.pc]);
      && Runs(q, fs', outer + Own(fs', e'), e.k.pc - 1, Wrote(fs'.code, e.k.pc - 1, m)) == (p, m')
      && !HasValue(fs'.code, e.k.pc)
    ensures SameBelow(q.m, m', q.base) && m'.trace == q.tr && q.v.Bool?
    ensures if Falsy(q.v) == want then p == e.k.pc else p == |fs.code|
  {
    var fs', e' := if want then InvertJump(fs, e.k.pc) else fs, Adds(e, want, [e.k.pc]);
    HoleStore(fs, e, outer, e.k.pc - 1, m);
    Listed(fs, e, outer);
    hide WF;
    assert e.k.pc - 1 !in outer + Own(fs', e');
    StepRun(q, fs', outer + Own(fs', e'), e.k.pc - 1, m);
    var i := fs.code[e.k.pc - 1];
    m' := Record(m, i.op, Operand(fs.k, m, i.left), Operand(fs.k, m, i.right));
    p := if Falsy(q.v) == want then e.k.pc else |fs.code|;
    assert e.k.pc in Own(fs', e');
    Stopped(q, fs', outer + Own(fs', e'), p, m');
    assert forall r :: Get(m', r) == Get(m, r);
  }

  lemma NothingToPatch(code: seq<Instr>, vt: int, reg: int, dt: int)
    ensures PatchList(code, [], vt, reg, dt) == code
  {
  }

  lemma ReserveFine(q: Query, fs: FS, e: ExpDesc, outer: set<nat>)
    requires Good(q, fs, e, outer)
    ensures Fine(q, fs, e, Reserve(fs), e, outer)
  {
    assert Own(Reserve(fs), e) == Own(fs, e);
    hide WF;
    SameCode(q, fs, e, Reserve(fs), e, outer);
  }

  /** Registers are given back. */
  lemma FreeChooses(q: Query, fs: FS, e: ExpDesc, outer: set<nat>, want: bool, free: int)
    requires Chooses(q, fs, e, outer, want) && fs.nact <= free
    ensures Chooses(q, fs.(free := free), e, outer, want) && Keeps(fs, e, fs.(free := free), e, outer)
  {
    var fs' := fs.(free := free);
    assert Own(fs', e) == Own(fs, e);
    hide WF;
    KeepsSelf(fs, e, fs', e, outer);
  }

  /** jumponcond. */
  lemma JumpOnCondChooses(q: Query, fs: FS, e: ExpDesc, outer: set<nat>, want: bool)
    requires Good(q, fs, e, outer) && !e.k.VLocal? && !e.k.VUpval? && !e.k.VJmp? && (e.k.VNonReloc? ==> e.k.r < fs.nact)
    requires q.base <= fs.free && !Untested(EndKind(fs, e.k), want)
    ensures var fs' := JumpOnCond(fs, e, !want); var e' := Adds(e, want, [|fs'.code| - 1]);
      && |fs'.code| > 0 && Chooses(Tested(q, EndKind(fs, e.k), want), fs', e', outer, want)
      && Keeps(fs, e, fs', e', outer) && fs'.free == fs.free && fs'.jpc == []
  {
    hide Chooses, Keeps, Good, JumpOnCond;
    if e.k.VReloc? {
      RelocAt(q, fs, e, outer);
      if fs.code[e.k.pc].Not? {
        NotTestChooses(q, fs, e, outer, want);
        NotTestCode(fs, e, want);
      } else {
        ValueChooses(q, fs, e, outer, want);
      }
    } else {
      ValueChooses(q, fs, e, outer, want);
    }
  }

  lemma RelocAt(q: Query, fs: FS, e: ExpDesc, outer: set<nat>)
    requires Good(q, fs, e, outer) && e.k.VReloc?
    ensures e.k.pc + 1 == |fs.code| && fs.jpc == []
  {
    hide WF;
  }

  lemma NotTestCode(fs: FS, e: ExpDesc, want: bool)
    requires e.k.VReloc? && e.k.pc + 1 == |fs.code| && fs.code[e.k.pc].Not? && fs.jpc == []
    ensures JumpOnCond(fs, e, !want) == fs.(code := fs.code[..e.k.pc] + [Test(fs.code[e.k.pc].b, want), Jmp(NO_JUMP)])
  {
    NothingToPatch(fs.code[..e.k.pc], |fs.code[..e.k.pc]|, NO_REG, |fs.code[..e.k.pc]|);
    assert JumpOnCond(fs, e, !want).code == fs.code[..e.k.pc] + [Test(fs.code[e.k.pc].b, want), Jmp(NO_JUMP)];
  }

  lemma ValueChooses(q: Query, fs: FS, e: ExpDesc, outer: set<nat>, want: bool)
    requires Good(q, fs, e, outer) && !e.k.VLocal? && !e.k.VUpval? && !e.k.VJmp? && (e.k.VNonReloc? ==> e.k.r < fs.nact)
    requires q.base <= fs.free && !Untested(EndKind(fs, e.k), want) && !EndKind(fs, e.k).EndsTest?
    requires !(e.k.VReloc? && e.k.pc + 1 == |fs.code| && fs.code[e.k.pc].Not?)
    ensures var fs' := JumpOnCond(fs, e, !want); var e' := Adds(e, want, [|fs'.code| - 1]);
      && |fs'.code| > 0 && Chooses(Tested(q, EndKind(fs, e.k), want), fs', e', outer, want)
      && Keeps(fs, e, fs', e', outer) && fs'.free == fs.free && fs'.jpc == []
  {
    hide Chooses, Keeps, StateOk, Means, Discharge2AnyReg, Entry, JumpOnCond, PatchList;
    var (fs1, e1) := Discharge2AnyReg(fs, e);
    AnyRegFine(q, fs, e, outer);
    DischargeGood(q, fs1, e1, outer);
    var fs2 := Discharge(fs1);
    FineTrans(q, fs, e, fs1, e1, fs2, e1, outer);
    var end := EndKind(fs, e.k);
    var q' := Tested(q, end, want);
    TestChooses(q, fs2, e1, outer, end, want);
    var fs3 := fs2.(code := fs2.code + [TestSet(NO_REG, e1.k.r, !want), Jmp(NO_JUMP)]);
    var fs', e' := JumpOnCond(fs, e, !want), Adds(e1, want, [|fs2.code| + 1]);
    KeepsFree(fs, e, outer);
    ValueCode(fs, e, want);
    FreeChooses(q', fs3, e', outer, want, fs.free);
    KeepsTrans(fs, e, fs2, e1, fs3, e', outer);
    ChoosesState(q', fs3, e', outer, want);
    KeepsTrans(fs, e, fs3, e', fs', e', outer);
  }

  lemma KeepsFree(fs: FS, e: ExpDesc, outer: set<nat>)
    requires StateOk(fs, e, outer)
    ensures 0 <= fs.nact <= fs.free && Discharge2AnyReg(fs, e).0.nact == fs.nact
  {
    hide WF, KindOk;
  }

  lemma ValueCode(fs: FS, e: ExpDesc, want: bool)
    requires !(e.k.VReloc? && e.k.pc + 1 == |fs.code| && fs.code[e.k.pc].Not?)
    requires var (fs1, e1) := Discharge2AnyReg(fs, e);
      && e1.k.VNonReloc?
      && (if e.k.VNonReloc? then e1.k.r < fs.nact && fs1.free == fs.free
          else e1.k.r == fs.free >= fs.nact && fs1.free == fs.free + 1)
    ensures var (fs1, e1) := Discharge2AnyReg(fs, e);
      JumpOnCond(fs, e, !want)
        == Discharge(fs1).(code := Discharge(fs1).code + [TestSet(NO_REG, e1.k.r, !want), Jmp(NO_JUMP)],
        free := fs.free)
  {
    hide PatchList;
    var (fs1, e1) := Discharge2AnyReg(fs, e);
    assert fs1.nact == fs.nact;
    assert JumpOnCond(fs, e, !want).code == Discharge(fs1).code + [TestSet(NO_REG, e1.k.r, !want), Jmp(NO_JUMP)];
  }

  lemma ChoosesState(q: Query, fs: FS, e: ExpDesc, outer: set<nat>, want: bool)
    requires Chooses(q, fs, e, outer, want)
    ensures StateOk(fs, e, outer)
  {
  }

  /** discharge2anyreg. */
  lemma AnyRegFine(q: Query, fs: FS, e: ExpDesc, outer: set<nat>)
    requires Good(q, fs, e, outer) && !e.k.VLocal? && !e.k.VUpval? && !e.k.VJmp? && (e.k.VNonReloc? ==> e.k.r < fs.nact)
    requires q.base <= fs.free
    ensures var (fs', e') := Discharge2AnyReg(fs, e);
      && Fine(q, fs, e, fs', e', outer) && e'.k.VNonReloc? && e' == e.(k := e'.k)
      && (if e.k.VNonReloc? then e'.k.r < fs.nact && fs'.free == fs.free
          else e'.k.r == fs.free && fs'.free == fs.free + 1)
  {
    hide Keeps, Means, Discharge2Reg;
    if e.k.VNonReloc? {
      FineSelf(q, fs, e, outer);
    } else {
      ReserveFine(q, fs, e, outer);
      Discharge2RegFine(q, Reserve(fs), e, outer, fs.free);
      var (fs', e') := Discharge2AnyReg(fs, e);
      hide StateOk;
      FineTrans(q, fs, e, Reserve(fs), e, fs', e', outer);
    }
  }

  /** A jump for a value that is wanted comes here, and holds what it carries. */
  function Here(q: Query, want: bool): Query
  {
    if q.way.Leaves? && Falsy(q.v) != want then q.(way := Arrives(q.way.carried)) else q
  }

  /** The jumps for the values that are wanted come here. */
  lemma HereChooses(q: Query, fs: FS, e: ExpDesc, outer: set<nat>, want: bool)
    requires Chooses(q, fs, e, outer, want) && Tracks(q, fs, e, outer)
    ensures var fs', e' := PatchToHere(fs, if want then e.t else e.f), if want then e.(t := []) else e.(f := []);
      && Chooses(Here(q, want), fs', e', outer, want) && Tracks(Here(q, want), fs', e', outer)
      && Keeps(fs, e, fs', e', outer)
  {
    var l := if want then e.t else e.f;
    var fs', e' := PatchToHere(fs, l), if want then e.(t := []) else e.(f := []);
    HereOp(fs, e, outer, l, e');
    assert Own(fs', e') == Own(fs, e);
    Listed(fs, e, outer);
    hide StateOk, Own;
    assert Ends(Here(q, want), fs', e', outer) == Ends(q, fs, e, outer);
  }

  function Exits(want: bool, l: seq<nat>): ExpDesc { if want then ExpDesc(VTrue, [], l) else ExpDesc(VTrue, l, []) }

  /** luaK_goiftrue and luaK_goiffalse: the code goes on exactly for the values that are wanted
      and leaves with the others, and the jumps carry what `Turn` says. */
  lemma GoIfChooses(q: Query, fs: FS, e: ExpDesc, outer: set<nat>, want: bool)
    requires Good(q, fs, e, outer) && Proper(fs, e) && (e.k.VNonReloc? ==> e.k.r < fs.nact) && q.base <= fs.free
    requires Tracks(q, fs, e, outer)
    ensures var (fs', l) := GoIf(fs, e, want); var q' := Turned(q, EndKind(fs, e.k), want);
      && Chooses(q', fs', Exits(want, l), outer, want) && Tracks(q', fs', Exits(want, l), outer)
      && Keeps(fs, e, fs', Exits(want, l), outer) && fs'.free == fs.free
  {
    hide Chooses, Keeps, Means, StateOk, Entry, JumpOnCond, Tracks;
    var end := EndKind(fs, e.k);
    var q' := Tested(q, end, want);
    var (fs1, e1) := DischargeVars(fs, e);
    DischargeVarsFine(q, fs, e, outer);
    VarsReg(q, fs, e, outer);
    VarsEnd(fs, e);
    var (fs2, l) := LastJump(fs1, e1, want);
    LastJumpChooses(q, fs1, e1, outer, want);
    HereChooses(q', fs2, Adds(e1, want, l), outer, want);
    ChoosesState(q', fs2, Adds(e1, want, l), outer, want);
    KeepsTrans(fs, e, fs1, e1, fs2, Adds(e1, want, l), outer);
    var (fs', l') := GoIf(fs, e, want);
    assert fs' == PatchToHere(fs2, if want then e1.t else e1.f) && l' == (if want then e1.f else e1.t) + l;
    KeepsTrans(fs, e, fs2, Adds(e1, want, l), fs', Exits(want, l'), outer);
  }

  function Turned(q: Query, end: Ending, want: bool): Query { q.(way := Turn(end, want, Course(q.v, q.tr, q.way))) }

  lemma VarsReg(q: Query, fs: FS, e: ExpDesc, outer: set<nat>)
    requires Good(q, fs, e, outer) && (e.k.VNonReloc? ==> e.k.r < fs.nact)
    ensures var (fs', e') := DischargeVars(fs, e); e'.k.VNonReloc? ==> e'.k.r < fs'.nact
  {
  }

  lemma VarsEnd(fs: FS, e: ExpDesc)
    ensures var (fs', e') := DischargeVars(fs, e);
      && EndKind(fs', e'.k) == EndKind(fs, e.k) && (Constant(EndKind(fs, e.k)) ==> (fs', e') == (fs, e))
  {
  }

  function LastJump(fs: FS, e: ExpDesc, want: bool): (FS, seq<nat>)
  {
    if (if want then e.k.VK? || e.k.VKNum? || e.k.VTrue? else e.k.VFalse?) then (fs, [])
    else if (if want then e.k.VFalse? else e.k.VTrue?) then (Jump(fs), JumpList(fs))
    else if e.k.VJmp? then (if want then InvertJump(fs, e.k.pc) else fs, [e.k.pc])
    else
      var fs' := JumpOnCond(fs, e, !want);
      (fs', if |fs'.code| > 0 then [|fs'.code| - 1] else [])
  }

  lemma LastJumpChooses(q: Query, fs: FS, e: ExpDesc, outer: set<nat>, want: bool)
    requires Good(q, fs, e, outer) && Proper(fs, e) && !e.k.VLocal? && !e.k.VUpval?
    requires (e.k.VNonReloc? ==> e.k.r < fs.nact) && q.base <= fs.free
    requires Constant(EndKind(fs, e.k)) ==> Tracks(q, fs, e, outer)
    ensures var (fs', l) := LastJump(fs, e, want); var q' := Tested(q, EndKind(fs, e.k), want);
      && Chooses(q', fs', Adds(e, want, l), outer, want) && Tracks(q', fs', Adds(e, want, l), outer)
      && Keeps(fs, e, fs', Adds(e, want, l), outer) && fs'.free == fs.free
  {
    hide Chooses, Keeps, Good, JumpOnCond, Ends;
    if (if want then e.k.VK? || e.k.VKNum? || e.k.VTrue? else e.k.VFalse?) {
      ConstChooses(q, fs, e, outer, want);
    } else if (if want then e.k.VFalse? else e.k.VTrue?) {
      JoinChooses(q, fs, e, outer, want);
    } else if e.k.VJmp? {
      CommitChooses(q, fs, e, outer, want);
      JmpWaits(q, fs, e, outer);
    } else {
      JumpOnCondChooses(q, fs, e, outer, want);
    }
  }

  lemma JmpWaits(q: Query, fs: FS, e: ExpDesc, outer: set<nat>)
    requires Good(q, fs, e, outer) && e.k.VJmp?
    ensures fs.jpc == [] && InvertJump(fs, e.k.pc).jpc == []
  {
    hide WF;
  }
}

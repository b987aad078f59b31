/** Negation: codenot. */
module CodeNots {
  import opened Base
  import opened LuaVm
  import opened CodeGen
  import opened CodeFlow
  import opened CodeShape
  import opened CodeMeaning
  import opened CodeRegs
  import opened CodeJumps

  /** The negation depends on the truth of a value only, and its jumps carry no values. */
  function Negated(q: Query, constant: bool): Query { q.(v := Bool(Falsy(q.v)), way := NotWay(q.way, constant)) }

  function Swap(code: seq<Instr>, e: ExpDesc): seq<Instr> { RemoveValues(RemoveValues(code, e.t), e.f) }

  /** A jump that lost its value leaves for the negated value. */
  lemma NegatedByJump(q: Query, fs: FS, e: ExpDesc, outer: set<nat>, code: seq<Instr>, fs': FS, k: Kind,
      constant: bool, p: nat, m: Machine)
    requires StateOk(fs, e, outer) && Exit(q, fs, e, p, m) && p in e.t + e.f && fs'.code == Swap(code, e)
    ensures Exit(Negated(q, constant), fs', ExpDesc(k, e.f, e.t), p, m) && q.way.Leaves?
  {
    Listed(fs, e, outer);
    hide StateOk;
    assert !HasValue(fs'.code, p);
  }

  /** The run of a negation, with the lists swapped: it leaves by a jump as it should, or goes on
      from the end of the operand. */
  lemma NegatedRun(q: Query, fs: FS, e: ExpDesc, fs': FS, k: Kind, outer: set<nat>, code: seq<Instr>, constant: bool)
    returns (p: nat, m: Machine)
    requires Good(q, fs, e, outer) && Keeps(fs, e, fs', ExpDesc(k, e.f, e.t), outer) && fs'.code == Swap(code, e)
    ensures var e' := ExpDesc(k, e.f, e.t);
      if p in e.t + e.f then Good(Negated(q, constant), fs', e', outer) && q.way.Leaves?
      else
        && AtEnd(fs, e.k, p) && Holds(q, fs, e.k, m) && SameBelow(q.m, m, q.base) && Entry(fs'.code, q.x)
        && q.way.Arrives? && Ends(q, fs, e, outer) == (p, m)
        && Ends(q, fs', e', outer) == Runs(q, fs', outer + Own(fs', e'), p, Wrote(fs'.code, p, m))
  {
    hide StateOk, Own, Run, Entry, Exit, Holds, AtEnd;
    var e' := ExpDesc(k, e.f, e.t);
    p, m := GoesOn(q, fs, e, fs', e', outer);
    if p in e.t + e.f {
      NegatedByJump(q, fs, e, outer, code, fs', k, constant, p, m);
    } else {
      ExitHolds(q, fs, e, p, m);
    }
  }

  lemma ExitEnd(q: Query, fs: FS, e: ExpDesc, p: nat, m: Machine)
    requires SameBelow(q.m, m, q.base) && p !in e.t && p !in e.f && AtEnd(fs, e.k, p) && Holds(q, fs, e.k, m)
    requires q.way.Arrives?
    ensures Exit(q, fs, e, p, m)
  {
  }

  predicate IsConst(k: Kind) { k.VTrue? || k.VFalse? || k.VK? || k.VKNum? }

  function NotConst(k: Kind): Kind { if k.VFalse? then VTrue else VFalse }

  lemma ConstNot(q: Query, fs: FS, e: ExpDesc, outer: set<nat>)
    requires Good(q, fs, e, outer) && Tracks(q, fs, e, outer) && IsConst(e.k) && Proper(fs, e)
    ensures var fs', e' := fs.(code := Swap(fs.code, e)), ExpDesc(NotConst(e.k), e.f, e.t);
      && Good(Negated(q, true), fs', e', outer) && Tracks(Negated(q, true), fs', e', outer)
      && Keeps(fs, e, fs', e', outer)
  {
    hide Run, Entry, Exit, Swap, WF;
    var fs', e' := fs.(code := Swap(fs.code, e)), ExpDesc(NotConst(e.k), e.f, e.t);
    SwapCode(fs, e);
    SwapOp(fs, e, outer, e');
    var p, m := NegatedRun(q, fs, e, fs', e'.k, outer, fs.code, true);
    if p !in e.t + e.f {
      Listed(fs, e, outer);
      ConstEnd(q, fs, e, outer, m);
      EndStops(q, fs', e', outer, p, m);
      ExitEnd(Negated(q, true), fs', e', p, m);
      SwapHolds(fs, e, outer, p, m);
    }
  }

  /** The tests of the jumps to here are not touched. */
  lemma SwapHolds(fs: FS, e: ExpDesc, outer: set<nat>, p: nat, m: Machine)
    requires StateOk(fs, e, outer)
    ensures Holding(fs.(code := Swap(fs.code, e)), p, m) == Holding(fs, p, m)
  {
    hide WF, KindOk;
  }

  lemma SwapCode(fs: FS, e: ExpDesc)
    ensures Swap(fs.code, e) == RemoveValues(RemoveValues(fs.code, e.t), e.f) && |Swap(fs.code, e)| == |fs.code|
  {
  }

  lemma ConstEnd(q: Query, fs: FS, e: ExpDesc, outer: set<nat>, m: Machine)
    requires StateOk(fs, e, outer) && IsConst(e.k) && Proper(fs, e) && Holds(q, fs, e.k, m)
    ensures Holds(Negated(q, true), fs.(code := Swap(fs.code, e)), NotConst(e.k), m)
  {
    hide WF;
  }

  lemma EndStops(q: Query, fs: FS, e: ExpDesc, outer: set<nat>, p: nat, m: Machine)
    requires StateOk(fs, e, outer) && AtEnd(fs, e.k, p)
    ensures Runs(q, fs, outer + Own(fs, e), p, Wrote(fs.code, p, m)) == (p, m) && p !in e.t && p !in e.f
  {
    if p in KindHoles(e.k) {
      HoleStore(fs, e, outer, p, m);
    } else {
      NoStore(fs, e, outer, p, m);
    }
    hide WF;
  }

  lemma JmpNot(q: Query, fs: FS, e: ExpDesc, outer: set<nat>)
    requires Good(q, fs, e, outer) && e.k.VJmp?
    ensures var fs1 := InvertJump(fs, e.k.pc); var fs', e' := fs1.(code := Swap(fs1.code, e)), ExpDesc(e.k, e.f, e.t);
      Good(Negated(q, false), fs', e', outer) && Keeps(fs, e, fs', e', outer)
  {
    hide Run, Entry, Exit, Swap, WF;
    var fs1 := InvertJump(fs, e.k.pc);
    var fs', e' := fs1.(code := Swap(fs1.code, e)), ExpDesc(e.k, e.f, e.t);
    InvertOp(fs, e, outer);
    SwapCode(fs1, e);
    SwapOp(fs1, e, outer, e');
    KeepsTrans(fs, e, fs1, e, fs', e', outer);
    var p, m := NegatedRun(q, fs, e, fs', e'.k, outer, fs1.code, false);
    if p !in e.t + e.f {
      JmpNotEnd(q, fs, e, outer, m);
      EndStops(q, fs', e', outer, p, m);
      ExitEnd(Negated(q, false), fs', e', p, m);
    }
  }

  lemma JmpNotEnd(q: Query, fs: FS, e: ExpDesc, outer: set<nat>, m: Machine)
    requires StateOk(fs, e, outer) && e.k.VJmp? && Holds(q, fs, e.k, m)
    ensures var fs1 := InvertJump(fs, e.k.pc); Holds(Negated(q, false), fs1.(code := Swap(fs1.code, e)), e.k, m)
  {
    hide WF;
    var i := fs.code[e.k.pc - 1];
    assert Swap(InvertJump(fs, e.k.pc).code, e)[e.k.pc - 1] == i.(cond := !i.cond);
  }

  lemma RegNot(q: Query, fs: FS, e: ExpDesc, outer: set<nat>)
    requires Good(q, fs, e, outer) && fs.jpc == [] && e.k.VNonReloc?
    ensures var i := Not(0, e.k.r);
      var fs', e' := fs.(code := Swap(fs.code + [i], e)), ExpDesc(VReloc(|fs.code|), e.f, e.t);
      Good(Negated(q, false), fs', e', outer) && Keeps(fs, e, fs', e', outer)
  {
    hide Run, Entry, Exit, Swap, WF;
    var i := Not(0, e.k.r);
    var fs1, e1 := fs.(code := fs.code + [i]), e.(k := VReloc(|fs.code|));
    var fs', e' := fs.(code := Swap(fs1.code, e)), ExpDesc(VReloc(|fs.code|), e.f, e.t);
    AppendOp(fs, e, outer, i, VReloc(|fs.code|));
    SwapCode(fs1, e);
    SwapOp(fs1, e1, outer, e');
    KeepsTrans(fs, e, fs1, e1, fs', e', outer);
    var p, m := NegatedRun(q, fs, e, fs', e'.k, outer, fs1.code, false);
    if p !in e.t + e.f {
      RegNotEnd(q, fs, e, m);
      EndStops(q, fs', e', outer, p, m);
      ExitEnd(Negated(q, false), fs', e', p, m);
    }
  }

  lemma RegNotEnd(q: Query, fs: FS, e: ExpDesc, m: Machine)
    requires e.k.VNonReloc? && Holds(q, fs, e.k, m)
    ensures Holds(Negated(q, false), fs.(code := Swap(fs.code + [Not(0, e.k.r)], e)), VReloc(|fs.code|), m)
  {
  }

  lemma FreeFine(q: Query, fs: FS, e: ExpDesc, outer: set<nat>, free: int)
    requires Good(q, fs, e, outer) && fs.nact <= free && !e.k.VNonReloc?
    ensures Fine(q, fs, e, fs.(free := free), e, outer)
  {
    assert Own(fs.(free := free), e) == Own(fs, e);
    hide WF;
    SameCode(q, fs, e, fs.(free := free), e, outer);
  }

  /** A value that has to be computed is negated by an instruction. */
  lemma ValueNot(q: Query, fs: FS, e: ExpDesc, outer: set<nat>)
    requires Good(q, fs, e, outer) && (e.k.VReloc? || e.k.VNonReloc?) && (e.k.VNonReloc? ==> e.k.r < fs.nact)
    requires q.base <= fs.free
    ensures var (fs', e') := CodeNot(fs, e);
      Good(Negated(q, false), fs', e', outer) && Keeps(fs, e, fs', e', outer) && fs'.free == fs.free
  {
    hide Keeps, StateOk, Means, Discharge2AnyReg, Entry, CodeNot, PatchList, Swap;
    var (fs1, e1) := Discharge2AnyReg(fs, e);
    AnyRegFine(q, fs, e, outer);
    DischargeGood(q, fs1, e1, outer);
    var fs2 := Discharge(fs1);
    FineTrans(q, fs, e, fs1, e1, fs2, e1, outer);
    RegNot(q, fs2, e1, outer);
    var fs3, e' := fs2.(code := Swap(fs2.code + [Not(0, e1.k.r)], e1)), ExpDesc(VReloc(|fs2.code|), e.f, e.t);
    KeepsTrans(fs, e, fs2, e1, fs3, e', outer);
    KeepsFree(fs, e, outer);
    FreeFine(Negated(q, false), fs3, e', outer, fs.free);
    KeepsTrans(fs, e, fs3, e', fs3.(free := fs.free), e', outer);
    ValueNotCode(fs, e);
  }

  lemma ValueNotCode(fs: FS, e: ExpDesc)
    requires e.k.VReloc? || e.k.VNonReloc?
    requires var (fs1, e1) := Discharge2AnyReg(fs, e);
      && e1 == e.(k := e1.k) && e1.k.VNonReloc?
      && (if e.k.VNonReloc? then e1.k.r < fs.nact && fs1.free == fs.free
          else e1.k.r == fs.free >= fs.nact && fs1.free == fs.free + 1)
    ensures var (fs1, e1) := Discharge2AnyReg(fs, e); var fs2 := Discharge(fs1);
      CodeNot(fs, e) == (fs2.(code := Swap(fs2.code + [Not(0, e1.k.r)], e1), free := fs.free),
        ExpDesc(VReloc(|fs2.code|), e.f, e.t))
  {
    hide PatchList, RemoveValues;
    var (fs1, e1) := Discharge2AnyReg(fs, e);
    assert fs1.nact == fs.nact;
  }

  /** Where something is to be computed, nothing is held. */
  lemma NothingHeld(q: Query, fs: FS, e: ExpDesc, outer: set<nat>)
    requires Good(q, fs, e, outer) && (e.k.VJmp? || e.k.VReloc?) && (q.way.Arrives? ==> q.way.held.None?)
    ensures Tracks(q, fs, e, outer)
  {
    hide WF;
  }

  /** codenot: the code finds the negation. */
  lemma CodeNotGood(q: Query, fs: FS, e: ExpDesc, outer: set<nat>)
    requires Good(q, fs, e, outer) && Proper(fs, e) && (e.k.VNonReloc? ==> e.k.r < fs.nact) && q.base <= fs.free
    requires Tracks(q, fs, e, outer)
    ensures var (fs', e') := CodeNot(fs, e); var q' := Negated(q, Constant(EndKind(fs, e.k)));
      && Good(q', fs', e', outer) && Tracks(q', fs', e', outer)
      && Keeps(fs, e, fs', e', outer) && fs'.free == fs.free && !e'.k.VNonReloc?
  {
    hide Keeps, StateOk, Means, Entry, PatchList, RemoveValues, Discharge2AnyReg, Tracks;
    var (fs1, e1) := DischargeVars(fs, e);
    DischargeVarsFine(q, fs, e, outer);
    VarsReg(q, fs, e, outer);
    VarsEnd(fs, e);
    var (fs', e') := CodeNot(fs1, e1);
    assert CodeNot(fs, e) == (fs', e');
    if IsConst(e1.k) {
      ConstNot(q, fs1, e1, outer);
    } else {
      if e1.k.VJmp? { JmpNot(q, fs1, e1, outer); } else { ValueNot(q, fs1, e1, outer); }
      NothingHeld(Negated(q, false), fs', e', outer);
    }
    KeepsTrans(fs, e, fs1, e1, fs', e', outer);
  }

  /** What a negation ends in. */
  lemma NotEnds(fs: FS, e: ExpDesc)
    requires e.k.VReloc? ==> e.k.pc < |fs.code|
    ensures var (fs', e') := CodeNot(fs, e); EndKind(fs', e'.k) == NotEnd(EndKind(fs, e.k))
    ensures var (fs', e') := CodeNot(fs, e); e'.k.VReloc? ==> e'.k.pc < |fs'.code|
  {
    hide Discharge2AnyReg, PatchList;
  }
}

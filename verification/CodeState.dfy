/** The code generator in place: the code, the constants and the free register change step by
    step, and lists are threaded through the jumps (lcode.c). Each operation is proved to do
    what the same operation does with the lists beside the code. */
module CodeState {
  import opened Base
  import opened LuaVm
  import opened G = CodeGen
  import opened CodeThreads
  import L = CodeLists
  import S = CodeShape

  class FuncState {
    var code: seq<Instr>
    var k: seq<Value>
    var jpc: int
    var freereg: int
    var nactvar: int

    /** A function with `n` local variables. */
    constructor (n: nat)
      ensures St() == Gen([], [], NO_JUMP, n, n)
    {
      code, k, jpc, freereg, nactvar := [], [], NO_JUMP, n, n;
    }

    function St(): Gen
      reads this
    {
      Gen(code, k, jpc, freereg, nactvar)
    }

    /** luaK_concat. The lists are given as the jumps they hold. */
    method Concat(l1: int, l2: int, ghost a: seq<nat>, ghost b: seq<nat>) returns (l: int)
      requires L.JumpList(code, l1, a) && L.JumpList(code, l2, b) && S.Disjoint(a, b)
      modifies this`code
      ensures L.JumpList(code, l, a + b) && |code| == old(|code|)
      ensures forall i :: 0 <= i < |code| && i !in a ==> code[i] == old(code)[i]
      ensures forall i :: 0 <= i < |code| && i in a ==> code[i].Jmp?
      ensures l2 == NO_JUMP ==> code == old(code)
    {
      L.ListMembers(code, l1, a);
      L.JoinedDistinct(a, b);
      if l2 == NO_JUMP {
        assert a + b == a;
        return l1;
      }
      if l1 == NO_JUMP {
        assert a + b == b;
        return l2;
      }
      var list := l1;
      ghost var rest := a;
      while L.Next(code, list) != NO_JUMP
        invariant rest != [] && 0 <= list < |code| && code[list].Jmp? && L.IsList(code, list, rest)
        invariant rest[|rest| - 1] == a[|a| - 1]
        decreases |rest|
      {
        rest := rest[1..];
        list := L.Next(code, list);
      }
      L.EndOfList(code, list, rest);
      assert list in a by { assert a[|a| - 1] in a; }
      L.ListJoined(code, l1, a, l2, b);
      code := code[list := Jmp(l2 - (list + 1))];
      l := l1;
    }

    /** need_value. */
    method NeedValue(list0: int, ghost l: seq<nat>) returns (r: bool)
      requires L.JumpList(code, list0, l)
      ensures r == G.NeedValue(code, l)
    {
      var list := list0;
      ghost var n := 0;
      L.ListMembers(code, list, l);
      assert l[0..] == l;
      while list != NO_JUMP
        invariant n <= |l| && L.IsList(code, list, l[n..])
        invariant forall p :: p in l[..n] ==> HasValue(code, p)
        decreases |l| - n
      {
        assert l[n..][0] == l[n] && l[n..][1..] == l[n + 1..] && l[n] in l;
        if !HasValue(code, list) { return true; }
        list := L.Next(code, list);
        n := n + 1;
        assert l[..n] == l[..n - 1] + [l[n - 1]];
      }
      assert l[..n] == l;
      r := false;
    }

    /** patchlistaux. */
    method PatchListAux(list0: int, vtarget: int, reg: int, dtarget: int, ghost l: seq<nat>)
      requires L.JumpList(code, list0, l)
      modifies this`code
      ensures code == G.PatchList(old(code), l, vtarget, reg, dtarget)
    {
      hide G.PatchList, Distinct;
      var list := list0;
      ghost var n := 0;
      L.ListMembers(code, list, l);
      assert l[0..] == l && l[..0] == [];
      L.PatchNothing(code, vtarget, reg, dtarget);
      while list != NO_JUMP
        invariant n <= |l| && L.IsList(code, list, l[n..])
        invariant code == G.PatchList(old(code), l[..n], vtarget, reg, dtarget)
        decreases |l| - n
      {
        ghost var was := code;
        assert l[n..][0] == l[n] && l[n..][1..] == l[n + 1..] && l[n] in l;
        var next := L.Next(code, list);
        if HasValue(code, list) {
          code := code[list - 1 := G.PatchTest(code[list - 1], reg)];
          code := code[list := Jmp(vtarget - (list + 1))];
        } else {
          code := code[list := Jmp(dtarget - (list + 1))];
        }
        L.PatchOne(old(code), was, code, l, n, vtarget, reg, dtarget);
        list := next;
        n := n + 1;
      }
      assert l[..n] == l;
    }

    /** removevalues. */
    method RemoveValues(list0: int, ghost l: seq<nat>)
      requires L.JumpList(code, list0, l)
      modifies this`code
      ensures code == G.RemoveValues(old(code), l)
    {
      hide Distinct;
      var list := list0;
      ghost var n := 0;
      L.ListMembers(code, list, l);
      assert l[0..] == l && l[..0] == [];
      while list != NO_JUMP
        invariant n <= |l| && L.IsList(code, list, l[n..])
        invariant code == G.RemoveValues(old(code), l[..n])
        decreases |l| - n
      {
        ghost var was := code;
        assert l[n..][0] == l[n] && l[n..][1..] == l[n + 1..] && l[n] in l;
        var next := L.Next(code, list);
        if HasValue(code, list) {
          code := code[list - 1 := G.PatchTest(code[list - 1], NO_REG)];
        }
        L.RemoveOne(old(code), was, code, l, n);
        list := next;
        n := n + 1;
      }
      assert l[..n] == l;
    }

    /** luaK_code, which gives the jumps to the current position their target. */
    method Code(i: Instr, ghost l: seq<nat>) returns (pc: nat)
      requires L.JumpList(code, jpc, l)
      modifies this`code, this`jpc
      ensures pc == old(|code|) && jpc == NO_JUMP
      ensures code == G.PatchList(old(code), l, pc, NO_REG, pc) + [i]
    {
      PatchListAux(jpc, |code|, NO_REG, |code|, l);
      jpc := NO_JUMP;
      pc := |code|;
      code := code + [i];
    }

    /** luaK_jump: the new jump is the first of the list of the jumps to here. */
    method Jump(ghost l: seq<nat>) returns (j: int)
      requires L.JumpList(code, jpc, l)
      modifies this`code, this`jpc
      ensures jpc == NO_JUMP && |code| == old(|code|) + 1 && j == old(|code|) && L.JumpList(code, j, [old(|code|)] + l)
      ensures l == [] ==> code[old(|code|)] == Jmp(NO_JUMP)
      ensures forall i :: 0 <= i < old(|code|) ==> code[i] == old(code)[i]
      ensures code[old(|code|)].Jmp?
    {
      var hold := jpc;
      L.ListMembers(code, jpc, l);
      jpc := NO_JUMP;
      ghost var was := code;
      var pc := Code(Jmp(NO_JUMP), []);
      L.PatchNothing(was, pc, NO_REG, pc);
      L.ListKept(was, code, hold, l);
      assert [pc][1..] == [];
      j := Concat(pc, hold, [pc], l);
    }

    /** luaK_patchtohere. */
    method PatchToHere(list: int, ghost l: seq<nat>, ghost here: seq<nat>)
      requires L.JumpList(code, list, l) && L.JumpList(code, jpc, here) && S.Disjoint(here, l)
      modifies this`code, this`jpc
      ensures L.JumpList(code, jpc, here + l) && |code| == old(|code|)
      ensures forall i :: 0 <= i < |code| && i !in here ==> code[i] == old(code)[i]
      ensures forall i :: 0 <= i < |code| && i in here ==> code[i].Jmp?
    {
      jpc := Concat(jpc, list, here, l);
    }
    /** addk, for a constant that may be there already. */
    method AddK(v: Value) returns (i: nat)
      modifies this`k
      ensures i < |k| && k[i] == v && old(k) <= k
      ensures k == if v in old(k) then old(k) else old(k) + [v]
      ensures forall j :: 0 <= j < i ==> k[j] != v
    {
      i := 0;
      while i < |k|
        invariant i <= |k| && forall j :: 0 <= j < i ==> k[j] != v
      {
        if k[i] == v { return; }
        i := i + 1;
      }
      k := k + [v];
    }

    /** freeexp. */
    method FreeExp(kind: Kind)
      modifies this`freereg
      ensures freereg == if kind.VNonReloc? && kind.r >= nactvar then old(freereg) - 1 else old(freereg)
    {
      if kind.VNonReloc? && kind.r >= nactvar { freereg := freereg - 1; }
    }

    /** condjump. */
    method CondJump(i: Instr, ghost x: Exp, ghost fs: FS, ghost e: ExpDesc, ghost outer: set<nat>) returns (j: int)
      requires Rep(St(), x, fs, e, outer) && S.NoHoles(e.k) && !i.Jmp?
      modifies this`code, this`jpc
      ensures j == |fs.code| + 1 && |code| == |fs.code| + 2 && L.JumpList(code, j, [|fs.code| + 1])
      ensures code[j] == Jmp(NO_JUMP)
      ensures Rep(St(), x, G.CondJump(fs, i), e, outer + S.Elems([|fs.code| + 1])) && S.Elems([|fs.code| + 1]) !! outer
      ensures Framed(old(code), code, outer)
    {
      hide Rep, Framed, Distinct, G.PatchList;
      RepFacts(St(), x, fs, e, outer);
      EmitRep(St(), x, fs, e, outer, i, e.k);
      var pc := Code(i, fs.jpc);
      ghost var g := St();
      ghost var fs1 := G.Emit(fs, i);
      assert x.(k := e.k) == x && e.(k := e.k) == e;
      RepFacts(g, x, fs1, e, outer);
      j := Jump([]);
      JumpRep(g, x, fs1, e, outer, code);
      assert G.JumpList(fs1) == [|fs.code| + 1] && [|fs.code| + 1] + [] == [|fs.code| + 1];
      FramedTrans(old(code), g.code, code, outer);
    }

    /** luaK_dischargevars. */
    method DischargeVars(x: Exp, ghost fs: FS, ghost e: ExpDesc, ghost outer: set<nat>) returns (x': Exp)
      requires Rep(St(), x, fs, e, outer)
      modifies this`code, this`jpc
      ensures var (fs', e') := G.DischargeVars(fs, e); Rep(St(), x', fs', e', outer) && !e'.k.VLocal? && !e'.k.VUpval?
      ensures Framed(old(code), code, outer) && x'.t == x.t && x'.f == x.f
      ensures x.k.VNonReloc? || x.k.VK? ==> x' == x && St() == old(St())
    {
      hide G.PatchList;
      match x.k
      case VLocal(r) =>
        KindRep(St(), x, fs, e, outer, VNonReloc(r));
        x' := x.(k := VNonReloc(r));
      case VUpval(u) =>
        EmitRep(St(), x, fs, e, outer, GetUpval(0, u), VReloc(|fs.code|));
        var pc := Code(GetUpval(0, u), fs.jpc);
        x' := x.(k := VReloc(pc));
      case _ => x' := x;
    }

    /** discharge2reg. */
    method Discharge2Reg(x: Exp, reg: int, ghost fs: FS, ghost e: ExpDesc, ghost outer: set<nat>) returns (x': Exp)
      requires Rep(St(), x, fs, e, outer)
      modifies this`code, this`jpc, this`k
      ensures var (fs', e') := G.Discharge2Reg(fs, e, reg);
        Rep(St(), x', fs', e', outer) && (e'.k.VJmp? || e'.k == VNonReloc(reg))
      ensures Framed(old(code), code, outer) && x'.t == x.t && x'.f == x.f
    {
      hide Rep, Framed, G.PatchList, G.DischargeVars;
      var y := DischargeVars(x, fs, e, outer);
      ghost var (fs1, e1) := G.DischargeVars(fs, e);
      RepFacts(St(), y, fs1, e1, outer);
      if y.k.VJmp? { return y; }
      ghost var g := St();
      ghost var c := code;
      match y.k {
        case VTrue => ToReg(LoadBool(reg, true, false), y, reg, fs1, e1, outer);
        case VFalse => ToReg(LoadBool(reg, false, false), y, reg, fs1, e1, outer);
        case VK(i) => ToReg(LoadK(reg, i), y, reg, fs1, e1, outer);
        case VKNum(v) =>
          var i := AddK(v);
          AddKRep(g, y, fs1, e1, outer, v, i);
          ToReg(LoadK(reg, i), y, reg, G.AddK(fs1, v), e1, outer);
        case VReloc(pc) =>
          SetARep(g, y, fs1, e1, outer, reg);
          code := code[pc := G.SetA(code[pc], reg)];
        case VNonReloc(r) =>
          if reg != r { ToReg(Move(reg, r), y, reg, fs1, e1, outer); }
      }
      FramedTrans(old(code), c, code, outer);
      x' := y.(k := VNonReloc(reg));
    }

    /** The value goes to a register. */
    method ToReg(i: Instr, ghost x: Exp, ghost reg: int, ghost fs: FS, ghost e: ExpDesc, ghost outer: set<nat>)
      requires Rep(St(), x, fs, e, outer) && S.NoHoles(e.k) && !i.Jmp?
      modifies this`code, this`jpc
      ensures Rep(St(), x.(k := VNonReloc(reg)), G.Emit(fs, i), e.(k := VNonReloc(reg)), outer)
      ensures Framed(old(code), code, outer)
    {
      hide Rep, Framed, G.PatchList;
      RepFacts(St(), x, fs, e, outer);
      EmitRep(St(), x, fs, e, outer, i, VNonReloc(reg));
      var pc := Code(i, fs.jpc);
    }

    /** discharge2anyreg. */
    method Discharge2AnyReg(x: Exp, ghost fs: FS, ghost e: ExpDesc, ghost outer: set<nat>) returns (x': Exp)
      requires Rep(St(), x, fs, e, outer) && !e.k.VJmp?
      modifies this`code, this`jpc, this`k, this`freereg
      ensures var (fs', e') := G.Discharge2AnyReg(fs, e);
        Rep(St(), x', fs', e', outer) && e'.k.VNonReloc? && e'.t == e.t && e'.f == e.f
      ensures Framed(old(code), code, outer) && x'.t == x.t && x'.f == x.f
    {
      hide Rep, G.PatchList, G.ToReg;
      RepFacts(St(), x, fs, e, outer);
      if x.k.VNonReloc? { return x; }
      RegsRep(St(), x, fs, e, outer, freereg + 1);
      freereg := freereg + 1;
      x' := Discharge2Reg(x, freereg - 1, G.Reserve(fs), e, outer);
      RepFacts(St(), x', G.Discharge2AnyReg(fs, e).0, G.Discharge2AnyReg(fs, e).1, outer);
    }

    /** The loads of false and true at the end of exp2reg, and the jump over them. */
    method LoadValues(jumps: bool, reg: int, ghost x: Exp, ghost fs: FS, ghost e: ExpDesc, ghost outer: set<nat>)
      returns (pf: int, pt: int)
      requires Rep(St(), x, fs, e, outer) && S.NoHoles(e.k)
      modifies this`code, this`jpc
      ensures var fs' := G.LoadValues(fs, jumps, reg);
        Rep(St(), x, fs', e, outer) && pf == |fs'.code| - 2 && pt == |fs'.code| - 1
      ensures Framed(old(code), code, outer)
    {
      hide Rep, Framed, G.PatchList, Distinct;
      RepFacts(St(), x, fs, e, outer);
      var fj := NO_JUMP;
      ghost var fs1, held := fs, [];
      NoneHeld(St(), x, fs, e, outer);
      if jumps {
        ghost var g := St();
        fj := Jump(fs.jpc);
        JumpRep(g, x, fs, e, outer, code);
        fs1, held := G.Jump(fs), G.JumpList(fs);
      } else {
        FramedSame(code, outer);
      }
      ghost var c1 := code;
      ghost var o := outer + S.Elems(held);
      pf := Load(LoadBool(reg, false, true), x, fs1, e, o);
      ghost var c2, fs2 := code, G.Emit(fs1, LoadBool(reg, false, true));
      pt := Load(LoadBool(reg, true, false), x, fs2, e, o);
      ghost var c3, fs3 := code, G.Emit(fs2, LoadBool(reg, true, false));
      FramedTrans(c1, c2, c3, o);
      FramedList(c1, c3, o, fj, held);
      RepFacts(St(), x, fs3, e, o);
      ghost var g3 := St();
      ApartFrom(g3, x, fs3, e, outer, held);
      PatchToHere(fj, held, fs3.jpc);
      HeldHereRep(g3, x, fs3, e, outer, held, code, jpc);
      FramedLess(c1, c3, outer, o);
      FramedTrans(old(code), c1, c3, outer);
      FramedTrans(old(code), c3, code, outer);
    }

    /** code_label. */
    method Load(i: Instr, ghost x: Exp, ghost fs: FS, ghost e: ExpDesc, ghost outer: set<nat>) returns (pc: nat)
      requires Rep(St(), x, fs, e, outer) && S.NoHoles(e.k) && !i.Jmp?
      modifies this`code, this`jpc
      ensures Rep(St(), x, G.Emit(fs, i), e, outer) && Framed(old(code), code, outer) && pc == |fs.code|
    {
      hide Rep, Framed, G.PatchList;
      RepFacts(St(), x, fs, e, outer);
      EmitRep(St(), x, fs, e, outer, i, e.k);
      pc := Code(i, fs.jpc);
      assert x.(k := e.k) == x && e.(k := e.k) == e;
    }

    /** A pending comparison is put into the list for true. */
    method Settle(x: Exp, ghost fs: FS, ghost e: ExpDesc, ghost outer: set<nat>) returns (x': Exp)
      requires Rep(St(), x, fs, e, outer)
      modifies this`code
      ensures Rep(St(), x', fs, Settled(e), outer) && Framed(old(code), code, outer)
    {
      hide Rep, Framed;
      RepFacts(St(), x, fs, e, outer);
      FramedSame(code, outer);
      if !x.k.VJmp? { return x; }
      var q := x.k.pc;
      ghost var g := St();
      CommitRep(g, x, fs, e, outer, VFalse);
      var y := x.(k := VFalse);
      ghost var e1 := e.(k := VFalse);
      ApartFrom(g, y, fs, e1, outer, [q]);
      var t := Concat(y.t, q, e.t, [q]);
      SwapRep(g, y, fs, e1, outer + S.Elems([q]));
      JoinRep(g, Exp(VFalse, y.f, y.t), fs, ExpDesc(VFalse, e1.f, e1.t), outer, [q], code, t);
      SwapRep(St(), Exp(VFalse, y.f, t), fs, ExpDesc(VFalse, e1.f, e1.t + [q]), outer);
      x' := Exp(VFalse, t, x.f);
    }

    /** exp2reg. */
    method Exp2Reg(x: Exp, reg: int, ghost fs: FS, ghost e: ExpDesc, ghost outer: set<nat>) returns (x': Exp)
      requires Rep(St(), x, fs, e, outer)
      modifies this`code, this`jpc, this`k
      ensures Rep(St(), x', G.Exp2Reg(fs, e, reg), G.InReg(reg), outer) && Framed(old(code), code, outer)
      ensures x' == Exp(VNonReloc(reg), NO_JUMP, NO_JUMP)
    {
      hide Rep, Framed, G.Discharge2Reg, G.Exp2Reg, Resolved;
      var y := Discharge2Reg(x, reg, fs, e, outer);
      ghost var c1 := code;
      ghost var (fs1, e1) := G.Discharge2Reg(fs, e, reg);
      RepFacts(St(), y, fs1, e1, outer);
      var z := Settle(y, fs1, e1, outer);
      ghost var c2, e2 := code, Settled(e1);
      RepFacts(St(), z, fs1, e2, outer);
      Heads(code, z, e2);
      FramedTrans(old(code), c1, c2, outer);
      Exp2RegIs(fs, e, reg);
      if z.t != z.f {
        Resolve(z, !y.k.VJmp?, reg, fs1, e2, outer);
        FramedTrans(old(code), c2, code, outer);
      }
      ghost var r := G.Exp2Reg(fs, e, reg);
      KindRep(St(), Exp(z.k, NO_JUMP, NO_JUMP), r, ExpDesc(z.k, [], []), outer, VNonReloc(reg));
      x' := Exp(VNonReloc(reg), NO_JUMP, NO_JUMP);
    }

    /** The part of exp2reg for an expression with jumps. */
    method Resolve(z: Exp, jumps: bool, reg: int, ghost fs: FS, ghost e: ExpDesc, ghost outer: set<nat>)
      requires Rep(St(), z, fs, e, outer) && S.NoHoles(e.k)
      modifies this`code, this`jpc
      ensures Rep(St(), Exp(z.k, NO_JUMP, NO_JUMP), Resolved(fs, e, jumps, reg), ExpDesc(z.k, [], []), outer)
      ensures Framed(old(code), code, outer)
    {
      hide Rep, Framed, G.PatchList, G.LoadValues, G.NeedValue;
      RepFacts(St(), z, fs, e, outer);
      var pf, pt := NO_JUMP, NO_JUMP;
      var need := NeedValue(z.t, e.t);
      if !need { need := NeedValue(z.f, e.f); }
      NeedSame(St(), z, fs, e, outer);
      ghost var fs2 := fs;
      FramedSame(code, outer);
      if need {
        pf, pt := LoadValues(jumps, reg, z, fs, e, outer);
        fs2 := G.LoadValues(fs, jumps, reg);
      }
      RepFacts(St(), z, fs2, e, outer);
      ghost var c1 := code;
      PatchBoth(z, |code|, reg, pf, pt, fs2, e, outer);
      FramedTrans(old(code), c1, code, outer);
    }

    /** Both lists of an expression get their targets. */
    method PatchBoth(x: Exp, final: int, reg: int, pf: int, pt: int, ghost fs: FS, ghost e: ExpDesc,
        ghost outer: set<nat>)
      requires Rep(St(), x, fs, e, outer) && S.NoHoles(e.k)
      modifies this`code
      ensures var c := G.PatchList(G.PatchList(fs.code, e.f, final, reg, pf), e.t, final, reg, pt);
        Rep(St(), Exp(x.k, NO_JUMP, NO_JUMP), fs.(code := c), ExpDesc(x.k, [], []), outer)
      ensures Framed(old(code), code, outer)
    {
      hide Rep, Framed, G.PatchList, Distinct;
      RepFacts(St(), x, fs, e, outer);
      PatchRep(St(), x, fs, e, outer, final, reg, pf);
      PatchListAux(x.f, final, reg, pf, e.f);
      ghost var c1, fs1, e1 := code, fs.(code := G.PatchList(fs.code, e.f, final, reg, pf)), e.(f := []);
      SwapRep(St(), x.(f := NO_JUMP), fs1, e1, outer);
      ghost var y, e2 := Exp(x.k, NO_JUMP, x.t), ExpDesc(e.k, [], e.t);
      RepFacts(St(), y, fs1, e2, outer);
      PatchRep(St(), y, fs1, e2, outer, final, reg, pt);
      PatchListAux(x.t, final, reg, pt, e.t);
      FramedTrans(old(code), c1, code, outer);
    }

    /** luaK_exp2nextreg. */
    method Exp2NextReg(x: Exp, ghost fs: FS, ghost e: ExpDesc, ghost outer: set<nat>) returns (x': Exp)
      requires Rep(St(), x, fs, e, outer)
      modifies this`code, this`jpc, this`k, this`freereg
      ensures var (fs', e') := G.Exp2NextReg(fs, e); Rep(St(), x', fs', e', outer) && x'.k.VNonReloc? && x'.t == x'.f
      ensures Framed(old(code), code, outer)
    {
      hide Rep, Framed, G.DischargeVars, G.Exp2Reg;
      var y := DischargeVars(x, fs, e, outer);
      ghost var c1 := code;
      ghost var (fs1, e1) := G.DischargeVars(fs, e);
      RepFacts(St(), y, fs1, e1, outer);
      ghost var fs2 := G.Reserve(G.FreeExp(fs1, e1.k));
      RegsRep(St(), y, fs1, e1, outer, fs2.free);
      FreeExp(y.k);
      freereg := freereg + 1;
      x' := Exp2Reg(y, freereg - 1, fs2, e1, outer);
      FramedTrans(old(code), c1, code, outer);
    }

    /** luaK_exp2anyreg. */
    method Exp2AnyReg(x: Exp, ghost fs: FS, ghost e: ExpDesc, ghost outer: set<nat>) returns (x': Exp)
      requires Rep(St(), x, fs, e, outer)
      modifies this`code, this`jpc, this`k, this`freereg
      ensures var (fs', e') := G.Exp2AnyReg(fs, e); Rep(St(), x', fs', e', outer) && x'.k.VNonReloc? && x'.t == x'.f
      ensures Framed(old(code), code, outer)
      ensures x.k.VNonReloc? && x.t == x.f ==> x' == x && St() == old(St())
    {
      hide Rep, Framed, G.DischargeVars, G.Exp2Reg, G.Exp2NextReg;
      var y := DischargeVars(x, fs, e, outer);
      ghost var c1 := code;
      ghost var (fs1, e1) := G.DischargeVars(fs, e);
      RepFacts(St(), y, fs1, e1, outer);
      Heads(code, y, e1);
      if y.k.VNonReloc? {
        if y.t == y.f { return y; }
        if y.k.r >= nactvar {
          x' := Exp2Reg(y, y.k.r, fs1, e1, outer);
          FramedTrans(old(code), c1, code, outer);
          return;
        }
      }
      x' := Exp2NextReg(y, fs1, e1, outer);
      FramedTrans(old(code), c1, code, outer);
    }

    /** luaK_exp2val. */
    method Exp2Val(x: Exp, ghost fs: FS, ghost e: ExpDesc, ghost outer: set<nat>) returns (x': Exp)
      requires Rep(St(), x, fs, e, outer)
      modifies this`code, this`jpc, this`k, this`freereg
      ensures var (fs', e') := G.Exp2Val(fs, e); Rep(St(), x', fs', e', outer) && x'.t == x'.f
      ensures Framed(old(code), code, outer)
      ensures (x.k.VNonReloc? || x.k.VK?) && x.t == x.f ==> x' == x && St() == old(St())
    {
      hide Rep, Framed, G.DischargeVars, G.Exp2AnyReg;
      RepFacts(St(), x, fs, e, outer);
      Heads(code, x, e);
      if x.t != x.f { x' := Exp2AnyReg(x, fs, e, outer); } else { x' := DischargeVars(x, fs, e, outer); }
    }

    /** luaK_exp2RK: an operand in place already stays there. */
    method Exp2RK(x: Exp, ghost fs: FS, ghost e: ExpDesc, ghost outer: set<nat>) returns (x': Exp)
      requires Rep(St(), x, fs, e, outer)
      modifies this`code, this`jpc, this`k, this`freereg
      ensures var (fs', e') := G.Exp2RK(fs, e); Rep(St(), x', fs', e', outer)
      ensures InPlace(x') && Framed(old(code), code, outer)
      ensures InPlace(x) ==> x' == x && St() == old(St())
    {
      hide Rep, Framed, G.Exp2AnyReg, G.Exp2Val;
      var y := Exp2Val(x, fs, e, outer);
      ghost var c1 := code;
      ghost var (fs1, e1) := G.Exp2Val(fs, e);
      RepFacts(St(), y, fs1, e1, outer);
      if (y.k.VKNum? || y.k.VTrue? || y.k.VFalse?) && |k| <= MAXINDEXRK {
        var v := G.ConstValue(y.k);
        ghost var g := St();
        var i := AddK(v);
        AddKRep(g, y, fs1, e1, outer, v, i);
        KindRep(St(), y, G.AddK(fs1, v), e1, outer, VK(i));
        return y.(k := VK(i));
      }
      if y.k.VK? && y.k.i <= MAXINDEXRK { return y; }
      x' := Exp2AnyReg(y, fs1, e1, outer);
      FramedTrans(old(code), c1, code, outer);
    }

    /** invertjump. */
    method InvertJump(x: Exp, ghost fs: FS, ghost e: ExpDesc, ghost outer: set<nat>)
      requires Rep(St(), x, fs, e, outer) && e.k.VJmp?
      modifies this`code
      ensures Rep(St(), x, G.InvertJump(fs, e.k.pc), e, outer) && Framed(old(code), code, outer)
    {
      hide Framed;
      var q := x.k.pc - 1;
      NotPending(fs, e, outer, q);
      ChangeRep(St(), x, fs, e, outer, q, fs.code[q].(cond := !fs.code[q].cond));
      code := code[q := code[q].(cond := !code[q].cond)];
    }

    /** jumponcond. */
    method JumpOnCond(x: Exp, cond: bool, ghost fs: FS, ghost e: ExpDesc, ghost outer: set<nat>) returns (pc: int)
      requires Rep(St(), x, fs, e, outer) && !e.k.VJmp? && !e.k.VLocal? && !e.k.VUpval?
      modifies this`code, this`jpc, this`k, this`freereg
      ensures var fs' := G.JumpOnCond(fs, e, cond);
        |fs'.code| > 0 && Leaves(St(), x, fs', e, outer, pc, [|fs'.code| - 1])
      ensures Framed(old(code), code, outer)
    {
      hide Rep, Framed, G.PatchList, G.Discharge2AnyReg, Distinct;
      RepFacts(St(), x, fs, e, outer);
      ghost var c1;
      if x.k.VReloc? {
        var ie := code[x.k.pc];
        LastSame(St(), x, fs, e, outer);
        if ie.Not? {
          ChopRep(St(), x, fs, e, outer, VTrue);
          code := code[..x.k.pc];
          c1 := code;
          pc := CondJump(Test(ie.b, !cond), x.(k := VTrue), fs.(code := fs.code[..e.k.pc]), e.(k := VTrue), outer);
          FramedTrans(old(code), c1, code, outer);
          return;
        }
      }
      var y := Discharge2AnyReg(x, fs, e, outer);
      c1 := code;
      ghost var (fs1, e1) := G.Discharge2AnyReg(fs, e);
      RepFacts(St(), y, fs1, e1, outer);
      ghost var fs2 := G.FreeExp(fs1, e1.k);
      RegsRep(St(), y, fs1, e1, outer, fs2.free);
      KindRep(St().(free := fs2.free), y, fs2, e1, outer, VTrue);
      FreeExp(y.k);
      pc := CondJump(TestSet(NO_REG, y.k.r, cond), y.(k := VTrue), fs2, e1.(k := VTrue), outer);
      assert y.(k := VTrue) == x.(k := VTrue) && e1.(k := VTrue) == e.(k := VTrue);
      FramedTrans(old(code), c1, code, outer);
    }

    /** The end of luaK_goiftrue: the last jump joins the list `f`, and the jumps of `t` come here. */
    method Leave(f: int, pc: int, t: int, ghost fs: FS, ghost e: ExpDesc, ghost outer: set<nat>, ghost last: seq<nat>)
      returns (l: int)
      requires Leaves(St(), Exp(e.k, t, f), fs, e, outer, pc, last)
      modifies this`code, this`jpc
      ensures Held(St(), G.PatchToHere(fs, e.t), outer, l, e.f + last)
      ensures Framed(old(code), code, outer)
    {
      hide Rep, Framed, Distinct;
      ghost var x, e0 := Exp(VTrue, t, f), e.(k := VTrue);
      RepFacts(St(), x, fs, e0, outer + S.Elems(last));
      ApartFrom(St(), x, fs, e0, outer, last);
      ghost var g := St();
      l := Concat(f, pc, e.f, last);
      JoinRep(g, x, fs, e0, outer, last, code, l);
      ghost var c1, x1, e1 := code, x.(f := l), e0.(f := e.f + last);
      RepFacts(St(), x1, fs, e1, outer);
      g := St();
      PatchToHere(t, e.t, fs.jpc);
      HereRep(g, x1, fs, e1, outer, code, jpc);
      FramedTrans(old(code), c1, code, outer);
      HoldRep(St(), x1.(t := NO_JUMP), G.PatchToHere(fs, e.t), e1.(t := []), outer);
    }

    /** luaK_goiftrue; the head of the list for false. */
    method GoIfTrue(x: Exp, ghost fs: FS, ghost e: ExpDesc, ghost outer: set<nat>) returns (l: int)
      requires Rep(St(), x, fs, e, outer)
      modifies this`code, this`jpc, this`k, this`freereg
      ensures var (fs', f) := G.GoIfTrue(fs, e); Held(St(), fs', outer, l, f)
      ensures Framed(old(code), code, outer)
    {
      hide Rep, Framed, G.DischargeVars, G.JumpOnCond, Held, Leaves;
      var y := DischargeVars(x, fs, e, outer);
      ghost var c1 := code;
      ghost var (fs1, e1) := G.DischargeVars(fs, e);
      RepFacts(St(), y, fs1, e1, outer);
      var pc;
      ghost var fs2, last;
      if y.k.VK? || y.k.VKNum? || y.k.VTrue? {
        pc, fs2, last := NO_JUMP, fs1, [];
        NoJumpLeaves(St(), y, fs1, e1, outer);
        FramedSame(code, outer);
      } else if y.k.VFalse? {
        ghost var g := St();
        pc := Jump(fs1.jpc);
        fs2, last := G.Jump(fs1), G.JumpList(fs1);
        JumpLeaves(g, y, fs1, e1, outer, code, pc);
      } else if y.k.VJmp? {
        InvertJump(y, fs1, e1, outer);
        pc, fs2, last := y.k.pc, G.InvertJump(fs1, e1.k.pc), [e1.k.pc];
        CommitLeaves(St(), y, fs2, e1, outer);
      } else {
        pc := JumpOnCond(y, false, fs1, e1, outer);
        fs2 := G.JumpOnCond(fs1, e1, false);
        last := [|fs2.code| - 1];
      }
      ghost var c2 := code;
      l := Leave(y.f, pc, y.t, fs2, e1, outer, last);
      FramedTrans(old(code), c1, c2, outer);
      FramedTrans(old(code), c2, code, outer);
    }

    /** luaK_goiffalse; the head of the list for true. */
    method GoIfFalse(x: Exp, ghost fs: FS, ghost e: ExpDesc, ghost outer: set<nat>) returns (l: int)
      requires Rep(St(), x, fs, e, outer)
      modifies this`code, this`jpc, this`k, this`freereg
      ensures var (fs', t) := G.GoIfFalse(fs, e); Held(St(), fs', outer, l, t)
      ensures Framed(old(code), code, outer)
    {
      hide Rep, Framed, G.DischargeVars, G.JumpOnCond, Held, Leaves;
      var y := DischargeVars(x, fs, e, outer);
      ghost var c1 := code;
      ghost var (fs1, e1) := G.DischargeVars(fs, e);
      RepFacts(St(), y, fs1, e1, outer);
      var pc;
      ghost var fs2, last;
      if y.k.VFalse? {
        pc, fs2, last := NO_JUMP, fs1, [];
        NoJumpLeaves(St(), y, fs1, e1, outer);
        FramedSame(code, outer);
      } else if y.k.VTrue? {
        ghost var g := St();
        pc := Jump(fs1.jpc);
        fs2, last := G.Jump(fs1), G.JumpList(fs1);
        JumpLeaves(g, y, fs1, e1, outer, code, pc);
      } else if y.k.VJmp? {
        pc, fs2, last := y.k.pc, fs1, [e1.k.pc];
        CommitLeaves(St(), y, fs2, e1, outer);
        FramedSame(code, outer);
      } else {
        pc := JumpOnCond(y, true, fs1, e1, outer);
        fs2 := G.JumpOnCond(fs1, e1, true);
        last := [|fs2.code| - 1];
      }
      ghost var c2 := code;
      SwapLeaves(St(), y, fs2, e1, outer, pc, last);
      l := Leave(y.t, pc, y.f, fs2, ExpDesc(e1.k, e1.f, e1.t), outer, last);
      FramedTrans(old(code), c1, c2, outer);
      FramedTrans(old(code), c2, code, outer);
    }

    /** codenot. */
    method CodeNot(x: Exp, ghost fs: FS, ghost e: ExpDesc, ghost outer: set<nat>) returns (x': Exp)
      requires Rep(St(), x, fs, e, outer)
      modifies this`code, this`jpc, this`k, this`freereg
      ensures var (fs', e') := G.CodeNot(fs, e); Rep(St(), x', fs', e', outer)
      ensures Framed(old(code), code, outer)
    {
      hide Rep, Framed, G.DischargeVars, G.Discharge2AnyReg, G.PatchList, G.RemoveValues, G.InvertJump, Distinct;
      var y := DischargeVars(x, fs, e, outer);
      ghost var c1 := code;
      ghost var (fs1, e1) := G.DischargeVars(fs, e);
      RepFacts(St(), y, fs1, e1, outer);
      var z := y;
      ghost var fs2 := fs1;
      FramedSame(code, outer);
      if y.k.VFalse? {
        KindRep(St(), y, fs1, e1, outer, VTrue);
        z := y.(k := VTrue);
      } else if y.k.VK? || y.k.VKNum? || y.k.VTrue? {
        KindRep(St(), y, fs1, e1, outer, VFalse);
        z := y.(k := VFalse);
      } else if y.k.VJmp? {
        InvertJump(y, fs1, e1, outer);
        fs2 := G.InvertJump(fs1, e1.k.pc);
      } else {
        z, fs2 := EmitNot(y, fs1, e1, outer);
      }
      ghost var c2, e2 := code, e1.(k := z.k);
      RepFacts(St(), z, fs2, e2, outer);
      x' := Exp(z.k, z.f, z.t);
      SwapRep(St(), z, fs2, e2, outer);
      RemoveRep(St(), x', fs2, ExpDesc(z.k, e2.f, e2.t), outer);
      RemoveValues(x'.f, e2.t);
      ghost var c3, fs3 := code, fs2.(code := G.RemoveValues(fs2.code, e2.t));
      SwapRep(St(), x', fs3, ExpDesc(z.k, e2.f, e2.t), outer);
      RepFacts(St(), z, fs3, e2, outer);
      RemoveRep(St(), z, fs3, e2, outer);
      RemoveValues(x'.t, e2.f);
      SwapRep(St(), z, fs3.(code := G.RemoveValues(fs3.code, e2.f)), e2, outer);
      FramedTrans(old(code), c1, c2, outer);
      FramedTrans(old(code), c2, c3, outer);
      FramedTrans(old(code), c3, code, outer);
    }

    /** The value goes to a register and is negated. */
    method EmitNot(x: Exp, ghost fs: FS, ghost e: ExpDesc, ghost outer: set<nat>) returns (x': Exp, ghost fs': FS)
      requires Rep(St(), x, fs, e, outer) && !e.k.VJmp? && !e.k.VLocal? && !e.k.VUpval?
      modifies this`code, this`jpc, this`k, this`freereg
      ensures var (fsr, er) := G.Discharge2AnyReg(fs, e); var fsf := G.FreeExp(fsr, er.k);
        && er.k.VNonReloc? && fs' == G.Emit(fsf, Not(0, er.k.r)) && x' == x.(k := VReloc(|fsf.code|))
        && Rep(St(), x', fs', e.(k := x'.k), outer)
      ensures Framed(old(code), code, outer)
    {
      hide Rep, Framed, G.Discharge2AnyReg, G.PatchList;
      var y := Discharge2AnyReg(x, fs, e, outer);
      ghost var c1 := code;
      ghost var (fs1, e1) := G.Discharge2AnyReg(fs, e);
      RepFacts(St(), y, fs1, e1, outer);
      ghost var fs2 := G.FreeExp(fs1, e1.k);
      RegsRep(St(), y, fs1, e1, outer, fs2.free);
      FreeExp(y.k);
      EmitRep(St(), y, fs2, e1, outer, Not(0, y.k.r), VReloc(|fs2.code|));
      var pc := Code(Not(0, y.k.r), fs2.jpc);
      x', fs' := y.(k := VReloc(pc)), G.Emit(fs2, Not(0, e1.k.r));
      assert e1.(k := x'.k) == e.(k := x'.k);
      FramedTrans(old(code), c1, code, outer);
    }
    /** codecomp: `cond` is false for ~=, > and >=. The left operand is in place. */
    method CodeComp(op: Op, cond: bool, x1: Exp, x2: Exp, ghost rel: Rel, ghost fs: FS, ghost e1: ExpDesc,
        ghost e2: ExpDesc, ghost outer: set<nat>)
      returns (x': Exp)
      requires Rep(St(), x2, fs, e2, outer) && InPlace(x1) && x1.t == NO_JUMP && e1 == ExpDesc(x1.k, [], [])
      requires op == G.OpOf(rel) && cond == (rel == EQ || rel == LT || rel == LE)
      modifies this`code, this`jpc, this`k, this`freereg
      ensures var (fs', e') := G.CodeComp(fs, rel, e1, e2); Rep(St(), x', fs', e', outer)
      ensures Framed(old(code), code, outer)
    {
      hide Rep, Framed, G.Exp2RK, G.PatchList, G.CondJump, G.CodeComp, Distinct;
      BesideRep(St(), x1, x2, fs, e1, e2, outer);
      InPlaceIdle(fs, e1);
      var a := Exp2RK(x1, fs, e1, outer + Mine(fs, e2));
      var b := Exp2RK(x2, fs, e2, outer);
      ghost var c1 := code;
      ghost var (fs2, eb) := G.Exp2RK(fs, e2);
      RepFacts(St(), b, fs2, eb, outer);
      Heads(code, b, eb);
      FreeExp(b.k);
      FreeExp(a.k);
      ghost var fs3 := G.FreeExp(G.FreeExp(fs2, eb.k), e1.k);
      FreedTwice(St().(free := fs2.free), b, fs2, eb, outer, e1.k);
      CompOf(fs, rel, e1, e2, op, cond);
      var o1, o2 := G.AsOperand(a.k), G.AsOperand(b.k);
      var c := cond;
      if !cond && op != Eq { o1, o2, c := o2, o1, true; }
      var j := ComparedJump(Cmp(op, c, o1, o2), b, fs3, eb, outer);
      FramedTrans(old(code), c1, code, outer);
      x' := Exp(VJmp(j), NO_JUMP, NO_JUMP);
    }

    /** The comparison, and the jump that waits for its list. */
    method ComparedJump(i: Instr, ghost x: Exp, ghost fs: FS, ghost e: ExpDesc, ghost outer: set<nat>) returns (j: nat)
      requires Rep(St(), x, fs, e, outer) && S.NoHoles(e.k) && i.Cmp? && x.t == NO_JUMP && x.f == NO_JUMP && e.t == []
      requires e.f == []
      modifies this`code, this`jpc
      ensures j == |fs.code| + 1
      ensures Rep(St(), Exp(VJmp(j), NO_JUMP, NO_JUMP), G.CondJump(fs, i), ExpDesc(VJmp(j), [], []), outer)
      ensures Framed(old(code), code, outer)
    {
      hide Rep, Framed, G.PatchList, Distinct;
      j := CondJump(i, x, fs, e, outer);
      TestBefore(fs, i);
      assert S.Elems([|fs.code| + 1]) == {|fs.code| + 1};
      CompareRep(St(), x, G.CondJump(fs, i), e, outer);
    }

    /** The calls the parser makes for an expression. */
    method Expression(e: Expr, ghost fs: FS, ghost outer: set<nat>) returns (x: Exp)
      requires Rep(St(), Exp(VTrue, NO_JUMP, NO_JUMP), fs, ExpDesc(VTrue, [], []), outer)
      modifies this`code, this`jpc, this`k, this`freereg
      ensures var (fs', e') := G.Compile(fs, e); Rep(St(), x, fs', e', outer)
      ensures Framed(old(code), code, outer)
      decreases e, 1
    {
      hide Rep, Framed, G.CodeNot;
      ghost var g := St();
      FramedSame(code, outer);
      match e
      case Local(r) => x := Leaf(VLocal(r), fs, outer);
      case Upval(u) => x := Leaf(VUpval(u), fs, outer);
      case True => x := Leaf(VTrue, fs, outer);
      case False => x := Leaf(VFalse, fs, outer);
      case Numeral(n) => x := Leaf(VKNum(Num(n)), fs, outer);
      case Str(s) =>
        var i := AddK(Text(s));
        AddKRep(g, Exp(VTrue, NO_JUMP, NO_JUMP), fs, ExpDesc(VTrue, [], []), outer, Text(s), i);
        x := Leaf(VK(i), G.AddK(fs, Text(s)), outer);
      case NotE(a) =>
        var y := Expression(a, fs, outer);
        ghost var c1 := code;
        ghost var (fs1, e1) := G.Compile(fs, a);
        x := CodeNot(y, fs1, e1, outer);
        FramedTrans(old(code), c1, code, outer);
      case And(a, b) => x := Conjunction(a, b, fs, outer);
      case Or(a, b) => x := Disjunction(a, b, fs, outer);
      case Rel(rel, a, b) => x := Comparison(rel, a, b, fs, outer);
    }

    /** An expression that needs no code. */
    method Leaf(kind: Kind, ghost fs: FS, ghost outer: set<nat>) returns (x: Exp)
      requires Rep(St(), Exp(VTrue, NO_JUMP, NO_JUMP), fs, ExpDesc(VTrue, [], []), outer) && S.NoHoles(kind)
      ensures x == Exp(kind, NO_JUMP, NO_JUMP) && Rep(St(), x, fs, ExpDesc(kind, [], []), outer)
    {
      KindRep(St(), Exp(VTrue, NO_JUMP, NO_JUMP), fs, ExpDesc(VTrue, [], []), outer, kind);
      x := Exp(kind, NO_JUMP, NO_JUMP);
    }

    /** luaK_infix and luaK_posfix for `and`. */
    method Conjunction(a: Expr, b: Expr, ghost fs: FS, ghost outer: set<nat>) returns (x: Exp)
      requires Rep(St(), Exp(VTrue, NO_JUMP, NO_JUMP), fs, ExpDesc(VTrue, [], []), outer)
      modifies this`code, this`jpc, this`k, this`freereg
      ensures var (fs', e') := G.Compile(fs, And(a, b)); Rep(St(), x, fs', e', outer)
      ensures Framed(old(code), code, outer)
      decreases And(a, b), 0
    {
      hide Rep, Framed, G.GoIfTrue, G.DischargeVars, G.Compile, Held;
      CompileAnd(fs, a, b);
      var x1 := Expression(a, fs, outer);
      ghost var c1 := code;
      ghost var (fs1, e1) := G.Compile(fs, a);
      var l := GoIfTrue(x1, fs1, e1, outer);
      ghost var c2 := code;
      ghost var (fs2, held) := G.GoIfTrue(fs1, e1);
      FramedTrans(old(code), c1, c2, outer);
      var y := Operand2(b, l, fs2, outer, held);
      ghost var c3 := code;
      FramedTrans(old(code), c2, c3, outer);
      ghost var (fs3, e3) := G.Compile(fs2, b);
      ghost var (fs4, e4) := G.DischargeVars(fs3, e3);
      x := JoinFalse(y, l, fs4, e4, outer, held);
      FramedTrans(old(code), c3, code, outer);
    }

    /** luaK_infix and luaK_posfix for `or`. */
    method Disjunction(a: Expr, b: Expr, ghost fs: FS, ghost outer: set<nat>) returns (x: Exp)
      requires Rep(St(), Exp(VTrue, NO_JUMP, NO_JUMP), fs, ExpDesc(VTrue, [], []), outer)
      modifies this`code, this`jpc, this`k, this`freereg
      ensures var (fs', e') := G.Compile(fs, Or(a, b)); Rep(St(), x, fs', e', outer)
      ensures Framed(old(code), code, outer)
      decreases Or(a, b), 0
    {
      hide Rep, Framed, G.GoIfFalse, G.DischargeVars, G.Compile, Held;
      CompileOr(fs, a, b);
      var x1 := Expression(a, fs, outer);
      ghost var c1 := code;
      ghost var (fs1, e1) := G.Compile(fs, a);
      var l := GoIfFalse(x1, fs1, e1, outer);
      ghost var c2 := code;
      ghost var (fs2, held) := G.GoIfFalse(fs1, e1);
      FramedTrans(old(code), c1, c2, outer);
      var y := Operand2(b, l, fs2, outer, held);
      ghost var c3 := code;
      FramedTrans(old(code), c2, c3, outer);
      ghost var (fs3, e3) := G.Compile(fs2, b);
      ghost var (fs4, e4) := G.DischargeVars(fs3, e3);
      SwapRep(St(), y, fs4, e4, outer + S.Elems(held));
      var z := JoinFalse(Exp(y.k, y.f, y.t), l, fs4, ExpDesc(e4.k, e4.f, e4.t), outer, held);
      SwapRep(St(), z, fs4, ExpDesc(e4.k, e4.f, e4.t + held), outer);
      FramedTrans(old(code), c3, code, outer);
      x := Exp(z.k, z.f, z.t);
    }

    /** The right operand, while the jumps of the left one are held. */
    method Operand2(b: Expr, l: int, ghost fs: FS, ghost outer: set<nat>, ghost held: seq<nat>) returns (y: Exp)
      requires Held(St(), fs, outer, l, held)
      modifies this`code, this`jpc, this`k, this`freereg
      ensures var (fs3, e3) := G.Compile(fs, b); var (fs4, e4) := G.DischargeVars(fs3, e3);
        Rep(St(), y, fs4, e4, outer + S.Elems(held))
      ensures L.JumpList(code, l, held) && S.Elems(held) !! outer && Framed(old(code), code, outer)
      decreases b, 2
    {
      hide Rep, Framed, G.DischargeVars, G.Compile;
      ghost var o := outer + S.Elems(held);
      var x3 := Expression(b, fs, o);
      ghost var c1 := code;
      ghost var (fs3, e3) := G.Compile(fs, b);
      y := DischargeVars(x3, fs3, e3, o);
      FramedTrans(old(code), c1, code, o);
      FramedList(old(code), code, o, l, held);
      FramedLess(old(code), code, outer, o);
    }

    /** A list that was held joins the list for false. */
    method JoinFalse(y: Exp, l: int, ghost fs: FS, ghost e: ExpDesc, ghost outer: set<nat>, ghost held: seq<nat>)
      returns (x: Exp)
      requires Rep(St(), y, fs, e, outer + S.Elems(held)) && L.JumpList(code, l, held) && S.Elems(held) !! outer
      modifies this`code
      ensures Rep(St(), x, fs, e.(f := e.f + held), outer) && Framed(old(code), code, outer)
    {
      hide Rep, Framed, Distinct;
      RepFacts(St(), y, fs, e, outer + S.Elems(held));
      ApartFrom(St(), y, fs, e, outer, held);
      ghost var g := St();
      var f := Concat(y.f, l, e.f, held);
      JoinRep(g, y, fs, e, outer, held, code, f);
      x := y.(f := f);
    }

    /** luaK_infix and luaK_posfix for comparisons. */
    method Comparison(rel: Rel, a: Expr, b: Expr, ghost fs: FS, ghost outer: set<nat>) returns (x: Exp)
      requires Rep(St(), Exp(VTrue, NO_JUMP, NO_JUMP), fs, ExpDesc(VTrue, [], []), outer)
      modifies this`code, this`jpc, this`k, this`freereg
      ensures var (fs', e') := G.Compile(fs, Rel(rel, a, b)); Rep(St(), x, fs', e', outer)
      ensures Framed(old(code), code, outer)
      decreases Rel(rel, a, b), 0
    {
      hide Rep, Framed, G.Exp2RK, G.CodeComp, G.Compile, L.IsList;
      CompileRel(fs, rel, a, b);
      var x1 := Expression(a, fs, outer);
      ghost var c1 := code;
      ghost var (fs1, e1) := G.Compile(fs, a);
      var x2 := Exp2RK(x1, fs1, e1, outer);
      ghost var c2 := code;
      ghost var (fs2, e2) := G.Exp2RK(fs1, e1);
      RepFacts(St(), x2, fs2, e2, outer);
      Heads(code, x2, e2);
      KindRep(St(), x2, fs2, e2, outer, VTrue);
      var x3 := Expression(b, fs2, outer);
      ghost var c3 := code;
      ghost var (fs3, e3) := G.Compile(fs2, b);
      x := CodeComp(G.OpOf(rel), rel == EQ || rel == LT || rel == LE, x2, x3, rel, fs3, e2, e3, outer);
      FramedTrans(old(code), c1, c2, outer);
      FramedTrans(old(code), c2, c3, outer);
      FramedTrans(old(code), c3, code, outer);
    }
  }

  /** An operand that is a constant of a small index, or in a register. */
  predicate InPlace(x: Exp) { x.t == x.f && (x.k.VNonReloc? || (x.k.VK? && x.k.i <= MAXINDEXRK)) }

  /** An expression with jumps, brought to a register. */
  ghost function Resolved(fs: FS, e: ExpDesc, jumps: bool, reg: int): FS
  {
    var need := G.NeedValue(fs.code, e.t) || G.NeedValue(fs.code, e.f);
    var fs2 := if need then G.LoadValues(fs, jumps, reg) else fs;
    var final := |fs2.code|;
    var pt, pf := if need then final - 1 else NO_JUMP, if need then final - 2 else NO_JUMP;
    fs2.(code := G.PatchList(G.PatchList(fs2.code, e.f, final, reg, pf), e.t, final, reg, pt))
  }

  lemma Exp2RegIs(fs: FS, e: ExpDesc, reg: int)
    ensures var (fs1, e1) := G.Discharge2Reg(fs, e, reg); var e2 := Settled(e1);
      G.Exp2Reg(fs, e, reg) == if e2.t == e2.f then fs1 else Resolved(fs1, e2, !e1.k.VJmp?, reg)
  {
    hide G.Discharge2Reg, G.LoadValues, G.NeedValue, G.PatchList;
  }

  /** The jump of an expression that leaves it, not in a list yet. */
  ghost predicate Leaves(g: Gen, x: Exp, fs: FS, e: ExpDesc, outer: set<nat>, pc: int, last: seq<nat>)
  {
    && Rep(g, x.(k := VTrue), fs, e.(k := VTrue), outer + S.Elems(last))
    && L.JumpList(g.code, pc, last) && S.Elems(last) !! outer
  }

  /** Nothing but a list that is held while another expression is compiled. */
  ghost predicate Held(g: Gen, fs: FS, outer: set<nat>, h: int, l: seq<nat>)
  {
    && Rep(g, Exp(VTrue, NO_JUMP, NO_JUMP), fs, ExpDesc(VTrue, [], []), outer + S.Elems(l))
    && L.JumpList(g.code, h, l) && S.Elems(l) !! outer
  }

  lemma CompOf(fs: FS, rel: Rel, e1: ExpDesc, e2: ExpDesc, op: Op, cond: bool)
    requires G.Exp2RK(fs, e1) == (fs, e1) && op == G.OpOf(rel) && cond == (rel == EQ || rel == LT || rel == LE)
    requires (e1.k.VK? || e1.k.VNonReloc?) && (var k := G.Exp2RK(fs, e2).1.k; k.VK? || k.VNonReloc?)
    ensures var (fs2, b) := G.Exp2RK(fs, e2); var fs3 := G.FreeExp(G.FreeExp(fs2, b.k), e1.k);
      var o1, o2 := G.AsOperand(e1.k), G.AsOperand(b.k);
      var i := if !cond && op != Eq then Cmp(op, true, o2, o1) else Cmp(op, cond, o1, o2);
      G.CodeComp(fs, rel, e1, e2) == (G.CondJump(fs3, i), e1.(k := VJmp(|fs3.code| + 1)))
  {
    hide G.Exp2RK, G.FreeExp, G.CondJump;
  }

  lemma CompileRel(fs: FS, rel: Rel, a: Expr, b: Expr)
    ensures var (fs1, e1) := G.Compile(fs, a); var (fs2, e2) := G.Exp2RK(fs1, e1); var (fs3, e3) := G.Compile(fs2, b);
      G.Compile(fs, Rel(rel, a, b)) == G.CodeComp(fs3, rel, e2, e3)
  {
    hide G.Exp2RK, G.CodeComp;
  }

  /** The jumps of one expression, for another one beside it. */
  ghost function Mine(fs: FS, e: ExpDesc): set<nat>
  {
    S.Elems(e.t) + S.Elems(e.f) + (if e.k.VJmp? then {e.k.pc} else {})
  }

  lemma BesideRep(g: Gen, x1: Exp, x2: Exp, fs: FS, e1: ExpDesc, e2: ExpDesc, outer: set<nat>)
    requires Rep(g, x2, fs, e2, outer) && S.NoHoles(x1.k) && x1.t == NO_JUMP && x1.f == NO_JUMP
    requires e1 == ExpDesc(x1.k, [], [])
    ensures Rep(g, x1, fs, e1, outer + Mine(fs, e2))
  {
    assert Pending(fs, e1, outer + Mine(fs, e2)) == Pending(fs, e2, outer);
  }

  lemma InPlaceIdle(fs: FS, e: ExpDesc)
    requires e.t == e.f && (e.k.VNonReloc? || (e.k.VK? && e.k.i <= MAXINDEXRK))
    ensures G.Exp2RK(fs, e) == (fs, e)
  {
  }

  lemma FreedTwice(g: Gen, x: Exp, fs: FS, e: ExpDesc, outer: set<nat>, k: Kind)
    requires Rep(g, x, fs, e, outer)
    ensures var fs' := G.FreeExp(G.FreeExp(fs, e.k), k); Rep(g.(free := fs'.free), x, fs', e, outer)
  {
    hide Rep;
    RegsRep(g, x, fs, e, outer, G.FreeExp(G.FreeExp(fs, e.k), k).free);
  }

  lemma TestBefore(fs: FS, i: Instr)
    ensures var fs' := G.CondJump(fs, i); |fs'.code| == |fs.code| + 2 && fs'.code[|fs.code|] == i && fs'.jpc == []
  {
  }

  lemma RepFacts(g: Gen, x: Exp, fs: FS, e: ExpDesc, outer: set<nat>)
    requires Rep(g, x, fs, e, outer)
    ensures |g.code| == |fs.code| && x.k == e.k && g.k == fs.k && g.free == fs.free && g.nact == fs.nact
    ensures L.JumpList(g.code, g.jpc, fs.jpc) && L.JumpList(g.code, x.t, e.t) && L.JumpList(g.code, x.f, e.f)
    ensures S.Disjoint(e.t, e.f) && S.Disjoint(fs.jpc, e.t) && S.Disjoint(fs.jpc, e.f)
    ensures e.k.VReloc? || e.k.VJmp? ==> e.k.pc + 1 == |fs.code| && fs.jpc == []
  {
    forall p | p in fs.jpc ensures p !in e.t && p !in e.f {
      if p in e.t { assert false; }
      if p in e.f { assert false; }
    }
  }

  lemma RegsRep(g: Gen, x: Exp, fs: FS, e: ExpDesc, outer: set<nat>, free: int)
    requires Rep(g, x, fs, e, outer)
    ensures Rep(g.(free := free), x, fs.(free := free), e, outer)
  {
    assert Pending(fs.(free := free), e, outer) == Pending(fs, e, outer);
  }

  lemma AddKRep(g: Gen, x: Exp, fs: FS, e: ExpDesc, outer: set<nat>, v: Value, i: nat)
    requires Rep(g, x, fs, e, outer)
    requires var k := if v in g.k then g.k else g.k + [v]; i < |k| && k[i] == v && forall j :: 0 <= j < i ==> k[j] != v
    ensures Rep(g.(k := if v in g.k then g.k else g.k + [v]), x, G.AddK(fs, v), e, outer) && i == G.KIndex(fs, v)
  {
    assert Pending(G.AddK(fs, v), e, outer) == Pending(fs, e, outer);
    if v in fs.k { FirstIndex(fs.k, v, i); }
  }

  lemma {:induction false} FirstIndex(k: seq<Value>, v: Value, i: nat)
    requires v in k && i < |k| && k[i] == v && forall j :: 0 <= j < i ==> k[j] != v
    ensures i == G.IndexOf(k, v)
    decreases |k|
  {
    if i > 0 { FirstIndex(k[1..], v, i - 1); }
  }

  lemma SetARep(g: Gen, x: Exp, fs: FS, e: ExpDesc, outer: set<nat>, reg: int)
    requires Rep(g, x, fs, e, outer) && e.k.VReloc?
    ensures e.k.pc < |g.code|
    ensures var q := e.k.pc; var code := g.code[q := G.SetA(g.code[q], reg)];
      && Rep(g.(code := code), x.(k := VNonReloc(reg)), fs.(code := fs.code[q := G.SetA(fs.code[q], reg)]),
         e.(k := VNonReloc(reg)), outer)
      && Framed(g.code, code, outer)
  {
    var q := e.k.pc;
    NotPending(fs, e, outer, q);
    var i := G.SetA(fs.code[q], reg);
    ChangeRep(g, x, fs, e, outer, q, i);
    UnlastRep(g.(code := g.code[q := i]), x, fs.(code := fs.code[q := i]), e, outer, VNonReloc(reg));
  }

  lemma UnlastRep(g: Gen, x: Exp, fs: FS, e: ExpDesc, outer: set<nat>, k: Kind)
    requires Rep(g, x, fs, e, outer) && e.k.VReloc? && S.NoHoles(k)
    ensures Rep(g, x.(k := k), fs, e.(k := k), outer)
  {
    assert Pending(fs, e.(k := k), outer) == Pending(fs, e, outer);
  }

  lemma NotPending(fs: FS, e: ExpDesc, outer: set<nat>, q: nat)
    requires Lists(fs, e, outer) && q < |fs.code| && !fs.code[q].Jmp?
    ensures q !in Pending(fs, e, outer)
  {
    JumpsPending(fs, e, outer);
  }

  lemma LastSame(g: Gen, x: Exp, fs: FS, e: ExpDesc, outer: set<nat>)
    requires Rep(g, x, fs, e, outer) && e.k.VReloc?
    ensures e.k.pc < |fs.code| && e.k.pc < |g.code| && g.code[e.k.pc] == fs.code[e.k.pc]
  {
    NotPending(fs, e, outer, e.k.pc);
  }

  lemma FramedSame(code: seq<Instr>, outer: set<nat>)
    ensures Framed(code, code, outer)
  {
  }

  lemma NoneHeld(g: Gen, x: Exp, fs: FS, e: ExpDesc, outer: set<nat>)
    requires Rep(g, x, fs, e, outer)
    ensures Rep(g, x, fs, e, outer + S.Elems([])) && L.JumpList(g.code, NO_JUMP, []) && S.Elems([]) !! outer
  {
    assert outer + S.Elems([]) == outer;
  }

  /** A list that is held shares no jump with those of the expression. */
  lemma ApartFrom(g: Gen, x: Exp, fs: FS, e: ExpDesc, outer: set<nat>, l: seq<nat>)
    requires Rep(g, x, fs, e, outer + S.Elems(l))
    ensures S.Disjoint(e.t, l) && S.Disjoint(e.f, l) && S.Disjoint(fs.jpc, l)
  {
    forall p | p in l ensures p in outer + S.Elems(l) { }
  }

  /** The heads of two lists that share no jump are equal only if both are empty. */
  lemma Heads(code: seq<Instr>, x: Exp, e: ExpDesc)
    requires L.IsList(code, x.t, e.t) && L.IsList(code, x.f, e.f) && S.Disjoint(e.t, e.f)
    ensures x.t == x.f <==> e.t == e.f
    ensures x.t == x.f ==> e.t == [] && e.f == [] && x.t == NO_JUMP
  {
    if e.t != [] && e.f != [] { assert e.t[0] in e.t && e.f[0] in e.f; }
  }

  lemma NeedSame(g: Gen, x: Exp, fs: FS, e: ExpDesc, outer: set<nat>)
    requires Rep(g, x, fs, e, outer)
    ensures G.NeedValue(g.code, e.t) == G.NeedValue(fs.code, e.t)
    ensures G.NeedValue(g.code, e.f) == G.NeedValue(fs.code, e.f)
  {
    L.LinksForgotten(fs.code, g.code, Pending(fs, e, outer), e.t, 0, 0, 0);
    L.LinksForgotten(fs.code, g.code, Pending(fs, e, outer), e.f, 0, 0, 0);
  }

  lemma NoJumpLeaves(g: Gen, x: Exp, fs: FS, e: ExpDesc, outer: set<nat>)
    requires Rep(g, x, fs, e, outer) && S.NoHoles(e.k)
    ensures Leaves(g, x, fs, e, outer, NO_JUMP, [])
  {
    KindRep(g, x, fs, e, outer, VTrue);
    NoneHeld(g, x.(k := VTrue), fs, e.(k := VTrue), outer);
  }

  lemma JumpLeaves(g: Gen, x: Exp, fs: FS, e: ExpDesc, outer: set<nat>, code: seq<Instr>, pc: int)
    requires Rep(g, x, fs, e, outer) && S.NoHoles(e.k) && |code| == |g.code| + 1 && code[|g.code|].Jmp?
    requires (forall i :: 0 <= i < |g.code| ==> code[i] == g.code[i]) && L.JumpList(code, pc, [|g.code|] + fs.jpc)
    ensures Leaves(g.(code := code, jpc := NO_JUMP), x, G.Jump(fs), e, outer, pc, G.JumpList(fs))
    ensures Framed(g.code, code, outer)
  {
    hide Rep, Framed;
    KindRep(g, x, fs, e, outer, VTrue);
    JumpRep(g, x.(k := VTrue), fs, e.(k := VTrue), outer, code);
  }

  lemma CommitLeaves(g: Gen, x: Exp, fs: FS, e: ExpDesc, outer: set<nat>)
    requires Rep(g, x, fs, e, outer) && e.k.VJmp?
    ensures Leaves(g, x, fs, e, outer, e.k.pc, [e.k.pc])
  {
    CommitRep(g, x, fs, e, outer, VTrue);
  }

  lemma SwapLeaves(g: Gen, x: Exp, fs: FS, e: ExpDesc, outer: set<nat>, pc: int, last: seq<nat>)
    requires Leaves(g, x, fs, e, outer, pc, last)
    ensures Leaves(g, Exp(e.k, x.f, x.t), fs, ExpDesc(e.k, e.f, e.t), outer, pc, last)
  {
    hide Rep;
    SwapRep(g, x.(k := VTrue), fs, e.(k := VTrue), outer + S.Elems(last));
  }
}

/** From an expression to its value: the generator in place, and the interpreter on its code. */
module CodeRun {
  import opened Base
  import opened LuaVm
  import G = CodeGen
  import F = CodeFlow
  import S = CodeShape
  import C = CodeCompile
  import X = CodeExact
  import T = CodeTheorems
  import L = CodeLists
  import M = CodeMeaning
  import opened CodeThreads
  import opened CodeState
  import opened CodeExec

  /** The state with the lists beside the code, when there are none. */
  function Of(g: Gen): G.FS { G.FS(g.code, g.k, [], g.free, g.nact) }

  /** The code for an expression, with its value in the next register: in place and through
      threaded lists it is the code that the theorems are about, for every expression. */
  method Generate(fs: FuncState, e: G.Expr)
    requires fs.jpc == G.NO_JUMP
    modifies fs
    ensures var r := T.CodeFor(old(Of(fs.St())), e); fs.St() == Gen(r.code, r.k, G.NO_JUMP, r.free, r.nact)
  {
    hide Rep, Framed, G.Compile, G.Exp2NextReg, G.PatchList;
    ghost var was := Of(fs.St());
    StartRep(fs.St());
    var x := fs.Expression(e, was, {});
    ghost var (fs1, e1) := G.Compile(was, e);
    var y := fs.Exp2NextReg(x, fs1, e1, {});
    ghost var (fs2, e2) := G.Exp2NextReg(fs1, e1);
    InNextReg(fs1, e1);
    RepFacts(fs.St(), y, fs2, e2, {});
    DischargeRep(fs.St(), y, fs2, e2, {});
    fs.PatchListAux(fs.jpc, |fs.code|, NO_REG, |fs.code|, fs2.jpc);
    fs.jpc := G.NO_JUMP;
    Finished(fs.St(), y, S.Discharge(fs2), e2);
  }

  lemma StartRep(g: Gen)
    requires g.jpc == G.NO_JUMP
    ensures Rep(g, Exp(G.VTrue, G.NO_JUMP, G.NO_JUMP), Of(g), G.ExpDesc(G.VTrue, [], []), {})
  {
  }

  lemma InNextReg(fs: G.FS, e: G.ExpDesc)
    ensures var (fs', e') := G.Exp2NextReg(fs, e); e'.t == [] && e'.f == [] && S.NoHoles(e'.k)
  {
    hide G.Exp2Reg, G.DischargeVars;
  }

  lemma Finished(g: Gen, x: Exp, fs: G.FS, e: G.ExpDesc)
    requires Rep(g, x, fs, e, {}) && fs.jpc == [] && e.t == [] && e.f == [] && S.NoHoles(e.k)
    ensures g.code == fs.code && g.k == fs.k && g.free == fs.free && g.nact == fs.nact
  {
    assert Pending(fs, e, {}) == {};
  }

  /** A function with `n` local variables and no code yet. */
  function New(n: nat): G.FS { G.FS([], [], [], n, n) }

  /** The whole way, for every expression: the generated code leaves behind the yield of the expression's
      course and makes its comparisons. They are those that the expression means if and only if
      neither the expression nor an operand of a comparison is left with the value of something
      else, and always so if the text rules that out. */
  method Evaluate(w: World, e: G.Expr, locals: map<int, Value>, n: nat) returns (v: Value, trace: seq<Event>)
    requires C.LocalsBelow(e, n)
    ensures var c := F.Flow(w, New(n), e, Machine(locals, []), None); (v, trace) == (F.Yield(c), c.tr)
    ensures (v, trace) == G.Eval(w, e, Machine(locals, [])) <==>
      X.Clear(w, New(n), e, Machine(locals, []), None) && !X.Astray(w, New(n), e, Machine(locals, []), None)
    ensures X.Sound(New(n), e, false) && !X.Loose(X.MarksOf(New(n), e, false)) ==>
      (v, trace) == G.Eval(w, e, Machine(locals, []))
  {
    hide G.Compile, T.CodeFor, G.Eval, X.Clear, X.Astray, X.Sound, X.MarksOf, C.LocalsBelow, F.Flow, F.Yield, WF, Run;
    var fs := new FuncState(n);
    Generate(fs, e);
    EmptyOk(New(n), n);
    T.ExpressionRuns(w, New(n), e, Machine(locals, []));
    T.ExpressionExact(w, New(n), e, Machine(locals, []));
    if X.Sound(New(n), e, false) && !X.Loose(X.MarksOf(New(n), e, false)) {
      T.ExpressionCorrect(w, New(n), e, Machine(locals, []));
    }
    var vm := new Interpreter(locals, 0);
    vm.Execute(w, fs.k, fs.code);
    v, trace := Get(vm.M(), n), vm.trace;
  }

  lemma EmptyOk(fs: G.FS, n: nat)
    requires fs == G.FS([], [], [], n, n)
    ensures S.StateOk(fs, C.Start, {})
  {
  }

  /** In particular for every expression without boolean literals and negated constants. */
  method EvaluatePlain(w: World, e: G.Expr, locals: map<int, Value>, n: nat) returns (v: Value, trace: seq<Event>)
    requires C.LocalsBelow(e, n) && X.NoLiteralLeft(e)
    ensures (v, trace) == G.Eval(w, e, Machine(locals, []))
  {
    hide G.Compile, G.Eval, X.Sound, X.MarksOf, X.Clear, X.Astray, F.Flow, F.Yield;
    X.NothingAdopted(New(n), e, false);
    v, trace := Evaluate(w, e, locals, n);
  }
}

/** The main results about generated code, and where the generator goes wrong. */
module CodeTheorems {
  import opened Base
  import opened LuaVm
  import opened CodeGen
  import opened CodeFlow
  import opened CodeShape
  import opened CodeMeaning
  import opened CodeRegs
  import opened CodeJumps
  import opened CodeNots
  import opened CodeValues
  import opened CodeCompile
  import opened CodeExact

  /** The whole of an expression: its code, with the value in the first free register, and the
      jumps to the current position resolved by whatever comes next. */
  function CodeFor(fs: FS, e: Expr): FS
  {
    var (fs1, e1) := Compile(fs, e);
    Discharge(Exp2NextReg(fs1, e1).0)
  }

  /** The code generated for any expression runs to its end without a stop and takes the course of the
      expression: it makes its comparisons, leaves its yield in the first free register and every
      register in use as it was. */
  lemma ExpressionRuns(w: World, fs: FS, e: Expr, m: Machine)
    requires StateOk(fs, Start, {}) && fs.jpc == [] && LocalsBelow(e, fs.nact)
    ensures var fs' := CodeFor(fs, e); var (p, m') := Run(w, fs'.k, fs'.code, {}, |fs.code|, m);
      && p == |fs'.code| && SameBelow(m, m', fs.free)
      && Get(m', fs.free) == Yield(Flow(w, fs, e, m, None)) && m'.trace == Flow(w, fs, e, m, None).tr
    ensures var fs' := CodeFor(fs, e); fs.code <= fs'.code && fs.k <= fs'.k && WF(fs'.code, |fs'.k|, {})
  {
    hide Keeps, StateOk, Entry, Run, Own, Exp2NextReg, WF, Flow, Compile, Tracks, EndKind;
    var (fs1, e1) := Compile(fs, e);
    CompileGood(w, fs, e, {}, |fs.code|, m);
    var q := Asks(w, fs, e, |fs.code|, m);
    NactFree(fs, {});
    Exp2NextRegGood(q, fs1, e1, {});
    var g := Given(q);
    var (fs2, e2) := Exp2NextReg(fs1, e1);
    DischargeGood(g, fs2, e2, {});
    var fs' := Discharge(fs2);
    KeepsTrans(fs, Start, fs1, e1, fs2, e2, {});
    KeepsTrans(fs, Start, fs2, e2, fs', e2, {});
    NoHoleLeft(fs', e2);
    StartStore(fs, fs', e2, {}, m);
    PrefixKept(fs, fs', e2);
    WFOf(fs', e2);
  }

  lemma StartStore(fs: FS, fs': FS, e: ExpDesc, outer: set<nat>, m: Machine)
    requires StateOk(fs, Start, outer) && Keeps(fs, Start, fs', e, outer)
    ensures Wrote(fs'.code, |fs.code|, m) == m
  {
    LastLands(fs, Start, outer);
    HolesNoTest(fs, Start, outer);
    hide WF;
    var n := |fs.code|;
    if n > 0 && n - 1 !in Own(fs, Start) { assert Intact(fs, Start, fs', e, n - 1); }
  }

  /** Exactly when the code is right, for every expression: the value in the register and the
      comparisons made are those that the expression means, unless a literal on the left of an `and`
      or `or` decides while another value is held, and the expression or an operand of a comparison
      is left that way. */
  lemma ExpressionExact(w: World, fs: FS, e: Expr, m: Machine)
    requires StateOk(fs, Start, {}) && fs.jpc == [] && LocalsBelow(e, fs.nact)
    ensures var fs' := CodeFor(fs, e); var (p, m') := Run(w, fs'.k, fs'.code, {}, |fs.code|, m);
      (Get(m', fs.free), m'.trace) == Eval(w, e, m) <==> Clear(w, fs, e, m, None) && !Astray(w, fs, e, m, None)
  {
    hide StateOk, Run, CodeFor, Flow, Clear, Astray, Eval, Yield;
    ExpressionRuns(w, fs, e, m);
    FlowExact(w, fs, e, m, None);
  }

  /** The comparisons are right exactly if no operand of one is left that way, and then the value is
      wrong exactly if the expression is. */
  lemma ValueExact(w: World, fs: FS, e: Expr, m: Machine)
    requires StateOk(fs, Start, {}) && fs.jpc == [] && LocalsBelow(e, fs.nact)
    ensures var fs' := CodeFor(fs, e); var (p, m') := Run(w, fs'.k, fs'.code, {}, |fs.code|, m);
      && (m'.trace == Eval(w, e, m).1 <==> Clear(w, fs, e, m, None))
      && (Clear(w, fs, e, m, None) ==> (Get(m', fs.free) != Eval(w, e, m).0 <==> Astray(w, fs, e, m, None)))
  {
    hide StateOk, Run, CodeFor, Flow, Clear, Astray, Eval, Yield;
    ExpressionRuns(w, fs, e, m);
    FlowExact(w, fs, e, m, None);
  }

  /** By the text of the expression: its value gets to the register, after the comparisons it means,
      if no run can leave it, or an operand of a comparison, with the value of something else. */
  lemma ExpressionCorrect(w: World, fs: FS, e: Expr, m: Machine)
    requires StateOk(fs, Start, {}) && fs.jpc == [] && LocalsBelow(e, fs.nact)
    requires Sound(fs, e, false) && !Loose(MarksOf(fs, e, false))
    ensures var fs' := CodeFor(fs, e); var (v, tr) := Eval(w, e, m);
      var (p, m') := Run(w, fs'.k, fs'.code, {}, |fs.code|, m);
      p == |fs'.code| && Get(m', fs.free) == v && m'.trace == tr && SameBelow(m, m', fs.free)
  {
    hide StateOk, Run, CodeFor, Flow, Clear, Astray, Eval, Yield, Sound, MarksOf;
    SoundClear(w, fs, e, m, None, false);
    NotLoose(w, fs, e, m, None, false);
    ExpressionRuns(w, fs, e, m);
    ExpressionExact(w, fs, e, m);
  }

  /** What the generator makes of an expression is a literal, another constant or a test exactly when the
      expression ends in one. */
  lemma {:induction false} KindOfEnd(fs: FS, e: Expr)
    ensures var (fs', e') := Compile(fs, e);
      EndKind(fs', e'.k) == EndOf(e) && (e'.k.VReloc? ==> e'.k.pc < |fs'.code|)
    decreases e, 0
  {
    hide CodeComp, GoIfTrue, GoIfFalse, Exp2RK, CodeNot, DischargeVars, PatchList;
    match e
    case NotE(a) =>
      KindOfEnd(fs, a);
      var (fs1, e1) := Compile(fs, a);
      NotEnds(fs1, e1);
    case And(a, b) =>
      var (fs1, e1) := Compile(fs, a);
      RightEnds(GoIfTrue(fs1, e1).0, b);
    case Or(a, b) =>
      var (fs1, e1) := Compile(fs, a);
      RightEnds(GoIfFalse(fs1, e1).0, b);
    case Rel(rel, a, b) =>
      var (fs1, e1) := Compile(fs, a);
      var (fs2, e2) := Exp2RK(fs1, e1);
      var (fs3, e3) := Compile(fs2, b);
      CompIsJump(fs3, rel, e2, e3);
    case _ =>
  }

  lemma {:induction false} RightEnds(fs: FS, b: Expr)
    ensures var (fs1, e1) := Compile(fs, b); var (fs', e') := DischargeVars(fs1, e1);
      EndKind(fs', e'.k) == EndOf(b) && (e'.k.VReloc? ==> e'.k.pc < |fs'.code|)
    decreases b, 1
  {
    hide PatchList, Compile;
    KindOfEnd(fs, b);
    var (fs1, e1) := Compile(fs, b);
    VarsEnd(fs1, e1);
  }

  lemma CompIsJump(fs: FS, rel: Rel, e1: ExpDesc, e2: ExpDesc)
    ensures CodeComp(fs, rel, e1, e2).1.k.VJmp?
  {
    hide Exp2RK, FreeExp, CondJump;
    var (fs1, a) := Exp2RK(fs, e1);
    OperandKind(fs, e1);
    OperandKind(fs1, e2);
  }

  lemma NoHoleLeft(fs: FS, e: ExpDesc)
    requires fs.jpc == [] && e.t == [] && e.f == [] && NoHoles(e.k)
    ensures {} + Own(fs, e) == {}
  {
  }

  lemma WFOf(fs: FS, e: ExpDesc)
    requires StateOk(fs, e, {}) && Own(fs, e) == {}
    ensures WF(fs.code, |fs.k|, {})
  {
    assert {} + Own(fs, e) == {};
  }

  lemma PrefixKept(fs: FS, fs': FS, e: ExpDesc)
    requires StateOk(fs, Start, {}) && Keeps(fs, Start, fs', e, {}) && fs.jpc == []
    ensures fs.code <= fs'.code && fs.k <= fs'.k
  {
    hide WF;
    forall i | 0 <= i < |fs.code| ensures fs'.code[i] == fs.code[i] {
      assert i !in Own(fs, Start);
      assert Intact(fs, Start, fs', e, i);
    }
  }

  /** As a condition (goiftrue, for `if` and `while`), the code of any expression takes its course and
      branches by the truth that it finds. */
  lemma ConditionRuns(w: World, fs: FS, e: Expr, m: Machine)
    requires StateOk(fs, Start, {}) && fs.jpc == [] && LocalsBelow(e, fs.nact)
    ensures var (fs1, e1) := Compile(fs, e); var (fs', f) := GoIfTrue(fs1, e1); var c := Flow(w, fs, e, m, None);
      var (p, m') := Run(w, fs'.k, fs'.code, Own(fs', Exits(true, f)), |fs.code|, m);
      && m'.trace == c.tr && SameBelow(m, m', fs.free)
      && (if Falsy(c.v) then p in f else p !in f && (p == |fs'.code| || p in fs'.jpc))
  {
    hide Keeps, StateOk, Entry, Run, Own, GoIfTrue, Flow, Compile, EndKind;
    var (fs1, e1) := Compile(fs, e);
    CompileGood(w, fs, e, {}, |fs.code|, m);
    var q := Asks(w, fs, e, |fs.code|, m);
    NactFree(fs, {});
    GoIfChooses(q, fs1, e1, {}, true);
    var (fs', f) := GoIfTrue(fs1, e1);
    LeftExit(Turned(q, EndOf(e), true), fs', true, f, {});
    KeepsTrans(fs, Start, fs1, e1, fs', Exits(true, f), {});
    StartStore(fs, fs', Exits(true, f), {}, m);
    assert {} + Own(fs', Exits(true, f)) == Own(fs', Exits(true, f));
  }

  /** Exactly when that is right: the comparisons are those that the expression means if and only if no
      operand of one is left with the value of something else, and then it goes on to what follows
      exactly when the value of the expression is true. How the expression itself is left does not matter. */
  lemma ConditionExact(w: World, fs: FS, e: Expr, m: Machine)
    requires StateOk(fs, Start, {}) && fs.jpc == [] && LocalsBelow(e, fs.nact)
    ensures var (fs1, e1) := Compile(fs, e); var (fs', f) := GoIfTrue(fs1, e1); var (v, tr) := Eval(w, e, m);
      var (p, m') := Run(w, fs'.k, fs'.code, Own(fs', Exits(true, f)), |fs.code|, m);
      && (m'.trace == tr <==> Clear(w, fs, e, m, None))
      && (Clear(w, fs, e, m, None) ==> if Falsy(v) then p in f else p !in f && (p == |fs'.code| || p in fs'.jpc))
  {
    hide StateOk, Run, Own, GoIfTrue, Flow, Clear, Astray, Eval, Compile;
    ConditionRuns(w, fs, e, m);
    FlowExact(w, fs, e, m, None);
  }

  /** By the text: a condition is right if no run can leave an operand of a comparison with the value of
      something else. */
  lemma ConditionCorrect(w: World, fs: FS, e: Expr, m: Machine)
    requires StateOk(fs, Start, {}) && fs.jpc == [] && LocalsBelow(e, fs.nact) && Sound(fs, e, false)
    ensures var (fs1, e1) := Compile(fs, e); var (fs', f) := GoIfTrue(fs1, e1); var (v, tr) := Eval(w, e, m);
      var (p, m') := Run(w, fs'.k, fs'.code, Own(fs', Exits(true, f)), |fs.code|, m);
      && m'.trace == tr && SameBelow(m, m', fs.free)
      && (if Falsy(v) then p in f else p !in f && (p == |fs'.code| || p in fs'.jpc))
  {
    hide StateOk, Run, Own, GoIfTrue, Flow, Clear, Eval, Compile, Sound;
    SoundClear(w, fs, e, m, None, false);
    ConditionRuns(w, fs, e, m);
    ConditionExact(w, fs, e, m);
  }

  /** ((x or false) and true) or false, with x the first local variable. */
  const BadExpr := Or(And(Or(Local(0), False), True), False)

  const Empty := FS([], [], [], 1, 1)

  /** The literal true is reached while x is held, and takes it along: whether that goes wrong depends
      on x alone. */
  lemma BadCourse(w: World, m: Machine)
    ensures Clear(w, Empty, BadExpr, m, None)
    ensures (Astray(w, Empty, BadExpr, m, None) <==> !Falsy(Get(m, 0)) && Get(m, 0) != Bool(true))
    ensures var c := Flow(w, Empty, BadExpr, m, None); Yield(c) == if Falsy(Get(m, 0)) then Bool(false) else Get(m, 0)
  {
    hide After, Compile;
    var x := Get(m, 0);
    var e1 := Or(Local(0), False);
    assert Flow(w, Empty, Local(0), m, None) == Course(x, m.trace, Arrives(None));
    var c1 := Flow(w, Empty, e1, m, None);
    assert c1 == if Falsy(x) then Course(Bool(false), m.trace, Arrives(None)) else Course(x, m.trace, Leaves(Some(x)));
    var c2 := Flow(w, Empty, And(e1, True), m, None);
    assert c2 == if Falsy(x) then Course(Bool(false), m.trace, Leaves(None))
      else Course(Bool(true), m.trace, Arrives(Some(x)));
    assert !Astray(w, Empty, And(e1, True), m, None);
  }

  /** So the code leaves x itself in the register for every x that is not nil or false, where the value
      of the expression is true. */
  lemma WrongValue(w: World, m: Machine)
    requires !Falsy(Get(m, 0))
    ensures Eval(w, BadExpr, m).0 == Bool(true)
    ensures var fs := CodeFor(Empty, BadExpr); var (p, m') := Run(w, fs.k, fs.code, {}, 0, m);
      p == |fs.code| && Get(m', Empty.free) == Get(m, 0)
  {
    hide CodeFor, Run, Flow, Yield, Clear, Astray, StateOk;
    BadMeans(w, m);
    EmptyOk();
    ExpressionRuns(w, Empty, BadExpr, m);
    BadCourse(w, m);
  }

  lemma EmptyOk()
    ensures StateOk(Empty, Start, {})
  {
  }

  lemma BadMeans(w: World, m: Machine)
    requires !Falsy(Get(m, 0))
    ensures Eval(w, BadExpr, m).0 == Bool(true)
  {
    assert Eval(w, Or(Local(0), False), m) == (Get(m, 0), m.trace);
    assert Eval(w, And(Or(Local(0), False), True), m) == (Bool(true), m.trace);
  }

  /** The guard by the text shuts the expression out as a value, but not its negation, and not the
      expression as a condition. */
  lemma BadAdopted()
    ensures Loose(MarksOf(Empty, BadExpr, false)) && !Loose(MarksOf(Empty, NotE(BadExpr), false))
    ensures Sound(Empty, BadExpr, false) && Sound(Empty, NotE(BadExpr), false)
  {
    hide After, Compile, MarksOf, Sound;
    var e1 := Or(Local(0), False);
    LogicMarks(Empty, Local(0), False, false, false);
    LogicMarks(Empty, e1, True, true, false);
    LogicMarks(Empty, And(e1, True), False, false, false);
    AtomMarks(Empty, Local(0), false);
    AtomMarks(After(Empty, Local(0), false), False, false);
    AtomMarks(After(Empty, e1, true), True, true);
    NotMarks(Empty, BadExpr, false);
    SoundOperands(Empty, BadExpr, false);
    SoundOperands(Empty, NotE(BadExpr), false);
  }

  lemma AtomMarks(fs: FS, e: Expr, held: bool)
    requires e.Local? || e.True? || e.False?
    ensures MarksOf(fs, e, held) == Marks(false, false, false, false, held)
  {
  }

  lemma NotMarks(fs: FS, e: Expr, held: bool)
    ensures !Loose(MarksOf(fs, NotE(e), held))
  {
  }
}

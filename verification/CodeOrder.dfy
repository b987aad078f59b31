/** What the operators of expressions mean, written out: the six comparisons, and truth. */
module CodeOrder {
  import opened Base
  import opened LuaVm
  import opened CodeGen
  import opened CodeFlow
  import opened CodeExact
  import C = CodeCompile
  import opened CodeRun

  /** A world that compares numbers as usual, whatever happened before. */
  ghost predicate Usual(w: World)
  {
    forall tr, x, y ::
      && w.rel(tr, Lt, Num(x), Num(y)) == (x < y)
      && w.rel(tr, Le, Num(x), Num(y)) == (x <= y)
      && w.rel(tr, Eq, Num(x), Num(y)) == (x == y)
  }

  predicate Ordered(rel: Rel, x: int, y: int)
  {
    match rel
    case EQ => x == y
    case NE => x != y
    case LT => x < y
    case LE => x <= y
    case GT => x > y
    case GE => x >= y
  }

  /** The last comparison of `a rel b`, and its value. The machine has no `>` and `>=`: it exchanges the
      operands. */
  lemma ComparisonMeans(w: World, a: Expr, b: Expr, m: Machine)
    ensures var (x, tra) := Eval(w, a, m); var (y, tr) := Eval(w, b, m.(trace := tra));
      && Eval(w, Rel(EQ, a, b), m) == (Bool(w.rel(tr, Eq, x, y)), tr + [Event(Eq, x, y)])
      && Eval(w, Rel(NE, a, b), m) == (Bool(!w.rel(tr, Eq, x, y)), tr + [Event(Eq, x, y)])
      && Eval(w, Rel(LT, a, b), m) == (Bool(w.rel(tr, Lt, x, y)), tr + [Event(Lt, x, y)])
      && Eval(w, Rel(LE, a, b), m) == (Bool(w.rel(tr, Le, x, y)), tr + [Event(Le, x, y)])
      && Eval(w, Rel(GT, a, b), m) == (Bool(w.rel(tr, Lt, y, x)), tr + [Event(Lt, y, x)])
      && Eval(w, Rel(GE, a, b), m) == (Bool(w.rel(tr, Le, y, x)), tr + [Event(Le, y, x)])
  {
    hide Eval;
    RelMeans(w, EQ, a, b, m);
    RelMeans(w, NE, a, b, m);
    RelMeans(w, LT, a, b, m);
    RelMeans(w, LE, a, b, m);
    RelMeans(w, GT, a, b, m);
    RelMeans(w, GE, a, b, m);
  }

  lemma RelMeans(w: World, rel: Rel, a: Expr, b: Expr, m: Machine)
    ensures var (x, tra) := Eval(w, a, m); var (y, tr) := Eval(w, b, m.(trace := tra));
      var (l, r) := if Swapped(rel) then (y, x) else (x, y);
      Eval(w, Rel(rel, a, b), m)
        == (Bool(w.rel(tr, OpOf(rel), l, r) == (rel != NE)), tr + [Event(OpOf(rel), l, r)])
  {
  }

  /** On numbers the six comparisons are those of the integers. */
  lemma NumbersCompare(w: World, rel: Rel, a: Expr, b: Expr, m: Machine, x: int, y: int)
    requires Usual(w) && Eval(w, a, m).0 == Num(x) && Eval(w, b, m.(trace := Eval(w, a, m).1)).0 == Num(y)
    ensures Eval(w, Rel(rel, a, b), m).0 == Bool(Ordered(rel, x, y))
  {
    hide Eval;
    ComparisonMeans(w, a, b, m);
    var tr := Eval(w, b, m.(trace := Eval(w, a, m).1)).1;
    assert w.rel(tr, Lt, Num(x), Num(y)) == (x < y) && w.rel(tr, Lt, Num(y), Num(x)) == (y < x);
  }

  /** And so they come out of the generated code, if its operands are not led astray. */
  method CompareNumbers(w: World, rel: Rel, a: Expr, b: Expr, locals: map<int, Value>, n: nat, ghost x: int,
      ghost y: int)
    returns (v: Value)
    requires Usual(w) && C.LocalsBelow(a, n) && C.LocalsBelow(b, n)
    requires var m := Machine(locals, []);
      Eval(w, a, m).0 == Num(x) && Eval(w, b, m.(trace := Eval(w, a, m).1)).0 == Num(y)
    requires Clear(w, New(n), Rel(rel, a, b), Machine(locals, []), None)
    ensures v == Bool(Ordered(rel, x, y))
  {
    hide Clear, Eval, Flow, MarksOf, Sound, Yield;
    ghost var e, m := Rel(rel, a, b), Machine(locals, []);
    var trace;
    NumbersCompare(w, rel, a, b, m, x, y);
    FlowExact(w, New(n), e, m, None);
    v, trace := Evaluate(w, Rel(rel, a, b), locals, n);
  }

  /** Only nil and false are not true: `not`, `and` and `or`, written out. */
  lemma TruthMeans(w: World, a: Expr, b: Expr, m: Machine)
    ensures var (v, tr) := Eval(w, a, m); var r := Eval(w, b, m.(trace := tr));
      && Eval(w, NotE(a), m) == (Bool(v == Nil || v == Bool(false)), tr)
      && Eval(w, And(a, b), m) == (if v == Nil || v == Bool(false) then (v, tr) else r)
      && Eval(w, Or(a, b), m) == (if v == Nil || v == Bool(false) then r else (v, tr))
  {
  }

  /** The tests of the machine: a test goes on to its jump exactly for a value of the truth asked for. */
  lemma TestMeans(w: World, k: seq<Value>, code: seq<Instr>, pc: nat, m: Machine)
    requires pc < |code|
    ensures code[pc].Test? ==> var v := Get(m, code[pc].a);
      Step(w, k, code, pc, m).0 == if (v != Nil && v != Bool(false)) == code[pc].c then pc + 1 else pc + 2
    ensures code[pc].TestSet? ==> var v := Get(m, code[pc].b);
      Step(w, k, code, pc, m).0 == if (v != Nil && v != Bool(false)) == code[pc].c then pc + 1 else pc + 2
    ensures code[pc].Not? ==> var v := Get(m, code[pc].b);
      Get(Step(w, k, code, pc, m).1, code[pc].a) == Bool(v == Nil || v == Bool(false))
  {
  }
}

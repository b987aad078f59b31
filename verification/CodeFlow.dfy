/** What the code of an expression does, read off the expression: its value, its comparisons, and how
    it ends. Nothing here runs the code. */
module CodeFlow {
  import opened Base
  import opened LuaVm
  import opened CodeGen

  /** How the code of an expression ends: it leaves by a jump, which may carry a value, or it arrives
      at its end, where a jump that arrives too may hold a value. */
  datatype Way = Leaves(carried: Option<Value>) | Arrives(held: Option<Value>)

  /** The value, as far as its truth goes, the comparisons made, and the way the code ends. */
  datatype Course = Course(v: Value, tr: seq<Event>, way: Way)

  /** The value that gets to a register: the one that the jump carries, if it carries one. */
  function Yield(c: Course): Value { if c.way.Leaves? && c.way.carried.Some? then c.way.carried.value else c.v }

  /** What an expression ends in: a literal, another constant, a test without a value (a comparison
      or a negation), or a value. */
  datatype Ending = EndsTrue | EndsFalse | EndsConstant | EndsTest | EndsValue

  function EndOf(e: Expr): Ending
  {
    match e
    case True => EndsTrue
    case False => EndsFalse
    case Numeral(_) => EndsConstant
    case Str(_) => EndsConstant
    case NotE(a) => NotEnd(EndOf(a))
    case And(_, b) => EndOf(b)
    case Or(_, b) => EndOf(b)
    case Rel(_, _, _) => EndsTest
    case _ => EndsValue
  }

  /** A negation of a constant is a literal. */
  function NotEnd(end: Ending): Ending
  {
    match end
    case EndsFalse => EndsTrue
    case EndsTrue => EndsFalse
    case EndsConstant => EndsFalse
    case _ => EndsTest
  }

  predicate Constant(end: Ending) { end.EndsTrue? || end.EndsFalse? || end.EndsConstant? }

  /** As the left operand of `and` (with `want`) or `or`, a constant is not tested: the code goes on,
      or always jumps. `or` tests a constant that is no literal, like a value. */
  predicate Untested(end: Ending, want: bool) { end.EndsTrue? || end.EndsFalse? || (want && end.EndsConstant?) }

  /** How the left operand of `and` or `or` ends once it has been tested. It leaves if it decides,
      and arrives at the right operand otherwise. What is held at an untested constant leaves with it
      or is held on; a test drops it, and the jump takes the tested value along, if there is one. */
  function Turn(end: Ending, want: bool, c: Course): Way
  {
    var decides := Falsy(c.v) == want;
    match c.way
    case Leaves(carried) => if decides then Leaves(carried) else Arrives(carried)
    case Arrives(held) => TurnEnd(end, want, c.v, held)
  }

  function TurnEnd(end: Ending, want: bool, v: Value, held: Option<Value>): Way
  {
    var decides := Falsy(v) == want;
    if Untested(end, want) then (if decides then Leaves(held) else Arrives(held))
    else if decides then Leaves(if end.EndsTest? then None else Some(v))
    else Arrives(None)
  }

  /** The jumps of a negation carry nothing; only a constant does not use up what is held. */
  function NotWay(way: Way, constant: bool): Way
  {
    match way
    case Leaves(_) => Leaves(None)
    case Arrives(held) => Arrives(if constant then held else None)
  }

  /** Reading an upvalue after `and` or `or` drops what is held. */
  function RightWay(b: Expr, way: Way): Way { if b.Upval? then Arrives(None) else way }

  /** The left operand of a comparison takes no code to be put in place. */
  predicate Stays(fs: FS, a: Expr)
  {
    var (fs1, e1) := Compile(fs, a);
    var fs2 := Exp2RK(fs1, e1).0;
    fs2 == fs1.(k := fs2.k)
  }

  /** What is held when the right operand of a comparison is entered. */
  function PassedOn(fs: FS, a: Expr, way: Way): Option<Value>
  {
    if Stays(fs, a) && way.Arrives? then way.held else None
  }

  /** The state of the generator before the right operand of `and` or `or`, and of a comparison. */
  function After(fs: FS, a: Expr, want: bool): FS
  {
    var (fs1, e1) := Compile(fs, a);
    GoIf(fs1, e1, want).0
  }

  function Placed(fs: FS, a: Expr): FS
  {
    var (fs1, e1) := Compile(fs, a);
    Exp2RK(fs1, e1).0
  }

  /** The course of an expression that is entered while `held` is held. The generator state tells no
      more than whether a constant still fits an operand. */
  function Flow(w: World, fs: FS, e: Expr, m: Machine, held: Option<Value>): Course
    decreases e
  {
    match e
    case NotE(a) =>
      var c := Flow(w, fs, a, m, held);
      Course(Bool(Falsy(c.v)), c.tr, NotWay(c.way, Constant(EndOf(a))))
    case And(a, b) =>
      var c := Flow(w, fs, a, m, held);
      var way := Turn(EndOf(a), true, c);
      if way.Leaves? then c.(way := way)
      else
        var d := Flow(w, After(fs, a, true), b, m.(trace := c.tr), way.held);
        d.(way := RightWay(b, d.way))
    case Or(a, b) =>
      var c := Flow(w, fs, a, m, held);
      var way := Turn(EndOf(a), false, c);
      if way.Leaves? then c.(way := way)
      else
        var d := Flow(w, After(fs, a, false), b, m.(trace := c.tr), way.held);
        d.(way := RightWay(b, d.way))
    case Rel(rel, a, b) =>
      var c := Flow(w, fs, a, m, held);
      var d := Flow(w, Placed(fs, a), b, m.(trace := c.tr), PassedOn(fs, a, c.way));
      var (l, r) := if Swapped(rel) then (Yield(d), Yield(c)) else (Yield(c), Yield(d));
      Course(Bool(Compare(w, OpOf(rel), l, r, d.tr) == (rel != NE)), d.tr + [Event(OpOf(rel), l, r)], Arrives(None))
    case _ => Course(Eval(w, e, m).0, m.trace, Arrives(held))
  }

  /** `and` (with `want`) and `or`. */
  function Logic(want: bool, a: Expr, b: Expr): Expr { if want then And(a, b) else Or(a, b) }

  lemma LogicFlow(w: World, fs: FS, a: Expr, b: Expr, want: bool, m: Machine, held: Option<Value>)
    ensures var c := Flow(w, fs, a, m, held); var way := Turn(EndOf(a), want, c);
      && (way.Leaves? ==> Flow(w, fs, Logic(want, a, b), m, held) == c.(way := way))
      && (way.Arrives? ==>
          var d := Flow(w, After(fs, a, want), b, m.(trace := c.tr), way.held);
          Flow(w, fs, Logic(want, a, b), m, held) == d.(way := RightWay(b, d.way)))
  {
    hide After, Turn, Compile;
  }

  /** At its end a constant has the value it is. */
  lemma {:induction false} EndValue(w: World, fs: FS, e: Expr, m: Machine, held: Option<Value>)
    requires Flow(w, fs, e, m, held).way.Arrives?
    ensures var v := Flow(w, fs, e, m, held).v;
      && (EndOf(e).EndsTrue? ==> v == Bool(true)) && (EndOf(e).EndsFalse? ==> v == Bool(false))
      && (EndOf(e).EndsConstant? ==> !Falsy(v)) && (EndOf(e).EndsTest? ==> v.Bool?)
    decreases e
  {
    hide After, Compile, Placed, Stays;
    match e
    case NotE(a) => EndValue(w, fs, a, m, held);
    case And(a, b) =>
      var c := Flow(w, fs, a, m, held);
      EndValue(w, After(fs, a, true), b, m.(trace := c.tr), Turn(EndOf(a), true, c).held);
    case Or(a, b) =>
      var c := Flow(w, fs, a, m, held);
      EndValue(w, After(fs, a, false), b, m.(trace := c.tr), Turn(EndOf(a), false, c).held);
    case _ =>
  }
}

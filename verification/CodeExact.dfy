/** Exactly when the course of an expression is what the expression means. */
module CodeExact {
  import opened Base
  import opened LuaVm
  import opened CodeGen
  import opened CodeFlow

  /** The expression is left with the value of something else: on the left of an `and` or `or` in it, a
      literal decides while another value is held, and nothing takes the jump back. */
  predicate Astray(w: World, fs: FS, e: Expr, m: Machine, held: Option<Value>)
    decreases e
  {
    match e
    case And(a, b) =>
      var c := Flow(w, fs, a, m, held);
      if Falsy(c.v) then Astray(w, fs, a, m, held) || TakesAlong(EndOf(a), true, c)
      else Astray(w, After(fs, a, true), b, m.(trace := c.tr), Turn(EndOf(a), true, c).held)
    case Or(a, b) =>
      var c := Flow(w, fs, a, m, held);
      if !Falsy(c.v) then Astray(w, fs, a, m, held) || TakesAlong(EndOf(a), false, c)
      else Astray(w, After(fs, a, false), b, m.(trace := c.tr), Turn(EndOf(a), false, c).held)
    case _ => false
  }

  /** The literal that the left operand ends in is reached while another value is held. */
  predicate TakesAlong(end: Ending, want: bool, c: Course)
  {
    Untested(end, want) && c.way.Arrives? && c.way.held.Some? && c.way.held.value != c.v
  }

  /** Exactly then a register gets another value than that of the expression. */
  lemma {:induction false} AstrayIs(w: World, fs: FS, e: Expr, m: Machine, held: Option<Value>)
    ensures var c := Flow(w, fs, e, m, held); Astray(w, fs, e, m, held) <==> Yield(c) != c.v
    decreases e
  {
    hide After, Placed, Compile, PassedOn;
    match e
    case And(a, b) =>
      AstrayIs(w, fs, a, m, held);
      var c := Flow(w, fs, a, m, held);
      if !Falsy(c.v) { AstrayIs(w, After(fs, a, true), b, m.(trace := c.tr), Turn(EndOf(a), true, c).held); }
    case Or(a, b) =>
      AstrayIs(w, fs, a, m, held);
      var c := Flow(w, fs, a, m, held);
      if Falsy(c.v) { AstrayIs(w, After(fs, a, false), b, m.(trace := c.tr), Turn(EndOf(a), false, c).held); }
    case _ =>
  }

  /** Every comparison that is made gets the values of its operands. */
  predicate Clear(w: World, fs: FS, e: Expr, m: Machine, held: Option<Value>)
    decreases e
  {
    match e
    case NotE(a) => Clear(w, fs, a, m, held)
    case And(a, b) =>
      var c := Flow(w, fs, a, m, held);
      var way := Turn(EndOf(a), true, c);
      && Clear(w, fs, a, m, held)
      && (way.Arrives? ==> Clear(w, After(fs, a, true), b, m.(trace := c.tr), way.held))
    case Or(a, b) =>
      var c := Flow(w, fs, a, m, held);
      var way := Turn(EndOf(a), false, c);
      && Clear(w, fs, a, m, held)
      && (way.Arrives? ==> Clear(w, After(fs, a, false), b, m.(trace := c.tr), way.held))
    case Rel(_, a, b) =>
      var c := Flow(w, fs, a, m, held);
      var m1, h := m.(trace := c.tr), PassedOn(fs, a, c.way);
      && Clear(w, fs, a, m, held) && !Astray(w, fs, a, m, held)
      && Clear(w, Placed(fs, a), b, m1, h) && !Astray(w, Placed(fs, a), b, m1, h)
    case _ => true
  }

  /** Two records of comparisons that went apart. */
  ghost predicate Apart(s: seq<Event>, t: seq<Event>) { exists i :: 0 <= i < |s| && i < |t| && s[i] != t[i] }

  lemma ApartLonger(s: seq<Event>, t: seq<Event>, s': seq<Event>, t': seq<Event>)
    requires Apart(s, t) && s <= s' && t <= t'
    ensures Apart(s', t')
  {
    var i :| 0 <= i < |s| && i < |t| && s[i] != t[i];
    assert s'[i] == s[i] && t'[i] == t[i];
  }

  lemma {:induction false} EvalExtends(w: World, e: Expr, m: Machine)
    ensures m.trace <= Eval(w, e, m).1
  {
    match e
    case NotE(a) => EvalExtends(w, a, m);
    case And(a, b) =>
      EvalExtends(w, a, m);
      EvalExtends(w, b, m.(trace := Eval(w, a, m).1));
    case Or(a, b) =>
      EvalExtends(w, a, m);
      EvalExtends(w, b, m.(trace := Eval(w, a, m).1));
    case Rel(_, a, b) =>
      EvalExtends(w, a, m);
      EvalExtends(w, b, m.(trace := Eval(w, a, m).1));
    case _ =>
  }

  lemma {:induction false} FlowExtends(w: World, fs: FS, e: Expr, m: Machine, held: Option<Value>)
    ensures m.trace <= Flow(w, fs, e, m, held).tr
    decreases e
  {
    hide After, Placed, Compile, Turn, PassedOn, Constant;
    match e
    case NotE(a) => FlowExtends(w, fs, a, m, held);
    case And(a, b) =>
      FlowExtends(w, fs, a, m, held);
      var c := Flow(w, fs, a, m, held);
      if Turn(EndOf(a), true, c).Arrives? {
        FlowExtends(w, After(fs, a, true), b, m.(trace := c.tr), Turn(EndOf(a), true, c).held);
      }
    case Or(a, b) =>
      FlowExtends(w, fs, a, m, held);
      var c := Flow(w, fs, a, m, held);
      if Turn(EndOf(a), false, c).Arrives? {
        FlowExtends(w, After(fs, a, false), b, m.(trace := c.tr), Turn(EndOf(a), false, c).held);
      }
    case Rel(_, a, b) =>
      FlowExtends(w, fs, a, m, held);
      var c := Flow(w, fs, a, m, held);
      FlowExtends(w, Placed(fs, a), b, m.(trace := c.tr), PassedOn(fs, a, c.way));
    case _ =>
  }

  /** It leaves exactly if it decides. */
  lemma TurnDecides(end: Ending, want: bool, c: Course)
    ensures Turn(end, want, c).Leaves? <==> Falsy(c.v) == want
  {
  }

  /** A course that is clear finds the truth of the expression, after the comparisons it means. One that is
      not makes a comparison that the expression does not mean. */
  lemma {:induction false} FlowIs(w: World, fs: FS, e: Expr, m: Machine, held: Option<Value>)
    ensures var c := Flow(w, fs, e, m, held);
      if Clear(w, fs, e, m, held) then (c.v, c.tr) == Eval(w, e, m) else Apart(c.tr, Eval(w, e, m).1)
    decreases e, 1
  {
    hide After, Placed, Compile, Turn, Apart, PassedOn;
    match e
    case NotE(a) => FlowIs(w, fs, a, m, held);
    case And(a, b) => LogicFlowIs(w, fs, a, b, true, m, held);
    case Or(a, b) => LogicFlowIs(w, fs, a, b, false, m, held);
    case Rel(rel, a, b) => RelFlowIs(w, fs, rel, a, b, m, held);
    case _ =>
  }

  lemma {:induction false} LogicFlowIs(w: World, fs: FS, a: Expr, b: Expr, want: bool, m: Machine, held: Option<Value>)
    ensures var e := Logic(want, a, b); var c := Flow(w, fs, e, m, held);
      if Clear(w, fs, e, m, held) then (c.v, c.tr) == Eval(w, e, m) else Apart(c.tr, Eval(w, e, m).1)
    decreases Logic(want, a, b), 0
  {
    hide After, Compile, Turn, Apart, Flow, Clear, Eval;
    LogicClear(w, fs, a, b, want, m, held);
    LogicFlow(w, fs, a, b, want, m, held);
    FlowIs(w, fs, a, m, held);
    var c, e := Flow(w, fs, a, m, held), Logic(want, a, b);
    var way, m1 := Turn(EndOf(a), want, c), m.(trace := c.tr);
    TurnDecides(EndOf(a), want, c);
    if way.Arrives? {
      FlowIs(w, After(fs, a, want), b, m1, way.held);
      FlowExtends(w, After(fs, a, want), b, m1, way.held);
    }
    if !Clear(w, fs, a, m, held) {
      EvalExtends(w, b, m.(trace := Eval(w, a, m).1));
      ApartLonger(c.tr, Eval(w, a, m).1, Flow(w, fs, e, m, held).tr, Eval(w, e, m).1);
    }
  }

  lemma LogicClear(w: World, fs: FS, a: Expr, b: Expr, want: bool, m: Machine, held: Option<Value>)
    ensures var c := Flow(w, fs, a, m, held); var way := Turn(EndOf(a), want, c);
      Clear(w, fs, Logic(want, a, b), m, held) <==>
        && Clear(w, fs, a, m, held)
        && (way.Arrives? ==> Clear(w, After(fs, a, want), b, m.(trace := c.tr), way.held))
    ensures Eval(w, Logic(want, a, b), m) ==
      if Falsy(Eval(w, a, m).0) == want then Eval(w, a, m) else Eval(w, b, m.(trace := Eval(w, a, m).1))
  {
    hide After, Compile, Turn, Flow;
  }

  lemma {:induction false} RelFlowIs(w: World, fs: FS, rel: Rel, a: Expr, b: Expr, m: Machine, held: Option<Value>)
    ensures var e := Rel(rel, a, b); var c := Flow(w, fs, e, m, held);
      if Clear(w, fs, e, m, held) then (c.v, c.tr) == Eval(w, e, m) else Apart(c.tr, Eval(w, e, m).1)
    decreases Rel(rel, a, b), 0
  {
    hide Placed, Compile, Apart, PassedOn, Yield, Astray, Flow, Clear, Eval, Swapped, OpOf;
    RelUnfolds(w, fs, rel, a, b, m, held);
    var c, e := Flow(w, fs, a, m, held), Rel(rel, a, b);
    FlowIs(w, fs, a, m, held);
    var m1, h := m.(trace := c.tr), PassedOn(fs, a, c.way);
    FlowIs(w, Placed(fs, a), b, m1, h);
    FlowExtends(w, Placed(fs, a), b, m1, h);
    AstrayIs(w, fs, a, m, held);
    AstrayIs(w, Placed(fs, a), b, m1, h);
    var d := Flow(w, Placed(fs, a), b, m1, h);
    var (va, tra) := Eval(w, a, m);
    var (vb, trb) := Eval(w, b, m.(trace := tra));
    if !Clear(w, fs, a, m, held) {
      EvalExtends(w, b, m.(trace := tra));
      ApartLonger(c.tr, tra, Flow(w, fs, e, m, held).tr, Eval(w, e, m).1);
    } else if !Clear(w, Placed(fs, a), b, m1, h) {
      ApartLonger(d.tr, trb, Flow(w, fs, e, m, held).tr, Eval(w, e, m).1);
    } else if Yield(c) != va || Yield(d) != vb {
      LastApart(trb, rel, Yield(c), Yield(d), va, vb);
    }
  }

  function RelEvent(rel: Rel, u: Value, y: Value): Event
  {
    if Swapped(rel) then Event(OpOf(rel), y, u) else Event(OpOf(rel), u, y)
  }

  function RelValue(w: World, rel: Rel, u: Value, y: Value, tr: seq<Event>): Value
  {
    Bool((if Swapped(rel) then Compare(w, OpOf(rel), y, u, tr) else Compare(w, OpOf(rel), u, y, tr)) == (rel != NE))
  }

  lemma RelUnfolds(w: World, fs: FS, rel: Rel, a: Expr, b: Expr, m: Machine, held: Option<Value>)
    ensures var c := Flow(w, fs, a, m, held); var m1, h := m.(trace := c.tr), PassedOn(fs, a, c.way);
      var d, f := Flow(w, Placed(fs, a), b, m1, h), Flow(w, fs, Rel(rel, a, b), m, held);
      && f.v == RelValue(w, rel, Yield(c), Yield(d), d.tr) && f.tr == d.tr + [RelEvent(rel, Yield(c), Yield(d))]
      && (Clear(w, fs, Rel(rel, a, b), m, held) <==>
        && Clear(w, fs, a, m, held) && !Astray(w, fs, a, m, held)
        && Clear(w, Placed(fs, a), b, m1, h) && !Astray(w, Placed(fs, a), b, m1, h))
    ensures var (u, tra) := Eval(w, a, m); var (y, trb) := Eval(w, b, m.(trace := tra));
      Eval(w, Rel(rel, a, b), m) == (RelValue(w, rel, u, y, trb), trb + [RelEvent(rel, u, y)])
  {
    hide Placed, Compile, PassedOn, Yield, Astray;
  }

  /** The last comparison is of other values. */
  lemma LastApart(tr: seq<Event>, rel: Rel, u: Value, y: Value, u': Value, y': Value)
    requires u != u' || y != y'
    ensures Apart(tr + [RelEvent(rel, u, y)], tr + [RelEvent(rel, u', y')])
  {
    var s, t := tr + [RelEvent(rel, u, y)], tr + [RelEvent(rel, u', y')];
    assert s[|tr|] != t[|tr|];
  }

  /** So the value that gets to a register and the comparisons are right if and only if no operand of a
      comparison and not the expression itself is left with the value of something else. */
  lemma FlowExact(w: World, fs: FS, e: Expr, m: Machine, held: Option<Value>)
    ensures var c := Flow(w, fs, e, m, held);
      && ((Yield(c), c.tr) == Eval(w, e, m) <==> Clear(w, fs, e, m, held) && !Astray(w, fs, e, m, held))
      && (c.tr == Eval(w, e, m).1 <==> Clear(w, fs, e, m, held))
      && (Clear(w, fs, e, m, held) ==> c.v == Eval(w, e, m).0)
  {
    hide Flow, Clear, Eval, Yield, Astray;
    FlowIs(w, fs, e, m, held);
    AstrayIs(w, fs, e, m, held);
  }

  /** What may happen in some run, by the text of the expression: it is left for a true or a false value by a
      jump that carries a value, or that carries the value of something else; something is held at its end. */
  datatype Marks = Marks(t: bool, f: bool, looseT: bool, looseF: bool, held: bool)

  predicate Loose(k: Marks) { k.looseT || k.looseF }

  predicate Decider(end: Ending, want: bool) { if want then end.EndsFalse? else end.EndsTrue? }

  /** The left operand may leave with a value, with another value, or go on while one is held. */
  predicate LeavesWith(end: Ending, want: bool, k: Marks)
  {
    (if want then k.f else k.t) || if Untested(end, want) then Decider(end, want) && k.held else !end.EndsTest?
  }

  predicate LeavesLoose(end: Ending, want: bool, k: Marks)
  {
    (if want then k.looseF else k.looseT) || (Decider(end, want) && k.held)
  }

  predicate HoldsOn(end: Ending, want: bool, k: Marks)
  {
    (if want then k.t else k.f) || (Untested(end, want) && !Decider(end, want) && k.held)
  }

  function JoinMarks(end: Ending, want: bool, k: Marks, b: Expr, d: Marks): Marks
  {
    var out, loose := LeavesWith(end, want, k), LeavesLoose(end, want, k);
    Marks(d.t || (!want && out), d.f || (want && out), d.looseT || (!want && loose), d.looseF || (want && loose),
          d.held && !b.Upval?)
  }

  function MarksOf(fs: FS, e: Expr, held: bool): Marks
    decreases e
  {
    match e
    case NotE(a) => Marks(false, false, false, false, Constant(EndOf(a)) && MarksOf(fs, a, held).held)
    case And(a, b) =>
      var k := MarksOf(fs, a, held);
      JoinMarks(EndOf(a), true, k, b, MarksOf(After(fs, a, true), b, HoldsOn(EndOf(a), true, k)))
    case Or(a, b) =>
      var k := MarksOf(fs, a, held);
      JoinMarks(EndOf(a), false, k, b, MarksOf(After(fs, a, false), b, HoldsOn(EndOf(a), false, k)))
    case Rel(_, _, _) => Marks(false, false, false, false, false)
    case _ => Marks(false, false, false, false, held)
  }

  /** The marks are right about every run. */
  ghost predicate Covers(k: Marks, c: Course)
  {
    && (c.way.Arrives? && c.way.held.Some? ==> k.held)
    && (c.way.Leaves? && c.way.carried.Some? ==>
        && (if Falsy(c.v) then k.f else k.t)
        && (c.way.carried.value != c.v ==> if Falsy(c.v) then k.looseF else k.looseT))
  }

  lemma {:induction false} MarksCover(w: World, fs: FS, e: Expr, m: Machine, held: Option<Value>, h: bool)
    requires held.Some? ==> h
    ensures Covers(MarksOf(fs, e, h), Flow(w, fs, e, m, held))
    decreases e, 1
  {
    hide After, Placed, Compile, PassedOn, JoinMarks, Turn;
    match e
    case NotE(a) => MarksCover(w, fs, a, m, held, h);
    case And(a, b) => LogicCover(w, fs, a, b, true, m, held, h);
    case Or(a, b) => LogicCover(w, fs, a, b, false, m, held, h);
    case _ =>
  }

  lemma {:induction false} LogicCover(w: World, fs: FS, a: Expr, b: Expr, want: bool, m: Machine, held: Option<Value>,
      h: bool)
    requires held.Some? ==> h
    ensures Covers(MarksOf(fs, Logic(want, a, b), h), Flow(w, fs, Logic(want, a, b), m, held))
    decreases Logic(want, a, b), 0
  {
    hide After, Compile, Flow, MarksOf, Turn, Covers, JoinMarks, HoldsOn;
    var c, k := Flow(w, fs, a, m, held), MarksOf(fs, a, h);
    MarksCover(w, fs, a, m, held, h);
    LogicFlow(w, fs, a, b, want, m, held);
    LogicMarks(fs, a, b, want, h);
    if c.way.Arrives? { EndValue(w, fs, a, m, held); }
    var way, k' := Turn(EndOf(a), want, c), MarksOf(After(fs, a, want), b, HoldsOn(EndOf(a), want, k));
    if way.Arrives? {
      TurnHolds(EndOf(a), want, k, c);
      MarksCover(w, After(fs, a, want), b, m.(trace := c.tr), way.held, HoldsOn(EndOf(a), want, k));
      JoinRight(EndOf(a), want, k, b, k', Flow(w, After(fs, a, want), b, m.(trace := c.tr), way.held));
    } else {
      JoinLeft(EndOf(a), want, k, b, k', c);
    }
  }

  /** At the end of a constant the value is what the constant is. */
  predicate Fits(end: Ending, c: Course)
  {
    c.way.Arrives? ==>
      && (end.EndsTrue? ==> c.v == Bool(true)) && (end.EndsFalse? ==> c.v == Bool(false))
      && (end.EndsConstant? ==> !Falsy(c.v))
  }

  lemma TurnHolds(end: Ending, want: bool, k: Marks, c: Course)
    requires Covers(k, c) && Fits(end, c) && Turn(end, want, c).Arrives?
    ensures Turn(end, want, c).held.Some? ==> HoldsOn(end, want, k)
  {
  }

  lemma JoinLeft(end: Ending, want: bool, k: Marks, b: Expr, k': Marks, c: Course)
    requires Covers(k, c) && Fits(end, c) && Turn(end, want, c).Leaves?
    ensures Covers(JoinMarks(end, want, k, b, k'), c.(way := Turn(end, want, c)))
  {
  }

  lemma JoinRight(end: Ending, want: bool, k: Marks, b: Expr, k': Marks, d: Course)
    requires Covers(k', d)
    ensures Covers(JoinMarks(end, want, k, b, k'), d.(way := RightWay(b, d.way)))
  {
  }

  lemma LogicMarks(fs: FS, a: Expr, b: Expr, want: bool, h: bool)
    ensures var k := MarksOf(fs, a, h);
      MarksOf(fs, Logic(want, a, b), h)
        == JoinMarks(EndOf(a), want, k, b, MarksOf(After(fs, a, want), b, HoldsOn(EndOf(a), want, k)))
  {
    hide After, Compile, JoinMarks, HoldsOn;
  }

  /** No operand of a comparison may be left with the value of something else. */
  predicate Sound(fs: FS, e: Expr, held: bool)
    decreases e
  {
    match e
    case NotE(a) => Sound(fs, a, held)
    case And(a, b) =>
      Sound(fs, a, held) && Sound(After(fs, a, true), b, HoldsOn(EndOf(a), true, MarksOf(fs, a, held)))
    case Or(a, b) =>
      Sound(fs, a, held) && Sound(After(fs, a, false), b, HoldsOn(EndOf(a), false, MarksOf(fs, a, held)))
    case Rel(_, a, b) =>
      var h := Stays(fs, a) && MarksOf(fs, a, held).held;
      && Sound(fs, a, held) && !Loose(MarksOf(fs, a, held))
      && Sound(Placed(fs, a), b, h) && !Loose(MarksOf(Placed(fs, a), b, h))
    case _ => true
  }

  lemma NotLoose(w: World, fs: FS, e: Expr, m: Machine, held: Option<Value>, h: bool)
    requires (held.Some? ==> h) && !Loose(MarksOf(fs, e, h))
    ensures !Astray(w, fs, e, m, held)
  {
    hide Flow, MarksOf, Astray;
    MarksCover(w, fs, e, m, held, h);
    AstrayIs(w, fs, e, m, held);
  }

  /** Then no comparison gets one in any run. */
  lemma {:induction false} SoundClear(w: World, fs: FS, e: Expr, m: Machine, held: Option<Value>, h: bool)
    requires Sound(fs, e, h) && (held.Some? ==> h)
    ensures Clear(w, fs, e, m, held)
    decreases e
  {
    hide After, Placed, Compile, MarksOf, Flow, HoldsOn, Astray, Stays, Loose;
    match e
    case NotE(a) => SoundClear(w, fs, a, m, held, h);
    case And(a, b) =>
      SoundClear(w, fs, a, m, held, h);
      var c, k := Flow(w, fs, a, m, held), MarksOf(fs, a, h);
      if Turn(EndOf(a), true, c).Arrives? {
        HeldOn(w, fs, a, true, m, held, h);
        SoundClear(w, After(fs, a, true), b, m.(trace := c.tr), Turn(EndOf(a), true, c).held,
          HoldsOn(EndOf(a), true, k));
      }
    case Or(a, b) =>
      SoundClear(w, fs, a, m, held, h);
      var c, k := Flow(w, fs, a, m, held), MarksOf(fs, a, h);
      if Turn(EndOf(a), false, c).Arrives? {
        HeldOn(w, fs, a, false, m, held, h);
        SoundClear(w, After(fs, a, false), b, m.(trace := c.tr), Turn(EndOf(a), false, c).held,
          HoldsOn(EndOf(a), false, k));
      }
    case Rel(_, a, b) =>
      SoundClear(w, fs, a, m, held, h);
      NotLoose(w, fs, a, m, held, h);
      MarksCover(w, fs, a, m, held, h);
      var c := Flow(w, fs, a, m, held);
      var m1, held1, h1 := m.(trace := c.tr), PassedOn(fs, a, c.way), Stays(fs, a) && MarksOf(fs, a, h).held;
      SoundClear(w, Placed(fs, a), b, m1, held1, h1);
      NotLoose(w, Placed(fs, a), b, m1, held1, h1);
    case _ =>
  }

  lemma HeldOn(w: World, fs: FS, a: Expr, want: bool, m: Machine, held: Option<Value>, h: bool)
    requires (held.Some? ==> h) && Turn(EndOf(a), want, Flow(w, fs, a, m, held)).Arrives?
    ensures Turn(EndOf(a), want, Flow(w, fs, a, m, held)).held.Some? ==> HoldsOn(EndOf(a), want, MarksOf(fs, a, h))
  {
    hide Flow, MarksOf, Turn, Covers, HoldsOn;
    MarksCover(w, fs, a, m, held, h);
    var c := Flow(w, fs, a, m, held);
    if c.way.Arrives? { EndValue(w, fs, a, m, held); }
    TurnHolds(EndOf(a), want, MarksOf(fs, a, h), c);
  }

  /** No left operand of `and` ends in false and none of `or` in true: so it is for expressions
      without boolean literals and negated constants. */
  predicate NoLiteralLeft(e: Expr)
  {
    match e
    case NotE(a) => NoLiteralLeft(a)
    case And(a, b) => NoLiteralLeft(a) && NoLiteralLeft(b) && EndOf(a) != EndsFalse
    case Or(a, b) => NoLiteralLeft(a) && NoLiteralLeft(b) && EndOf(a) != EndsTrue
    case Rel(_, a, b) => NoLiteralLeft(a) && NoLiteralLeft(b)
    case _ => true
  }

  /** Then no literal takes along a jump, wherever the value goes. */
  lemma {:induction false} NothingAdopted(fs: FS, e: Expr, held: bool)
    requires NoLiteralLeft(e)
    ensures !Loose(MarksOf(fs, e, held)) && Sound(fs, e, held)
    decreases e
  {
    hide After, Placed, Compile, Stays, HoldsOn;
    match e
    case NotE(a) => NothingAdopted(fs, a, held);
    case And(a, b) =>
      NothingAdopted(fs, a, held);
      NothingAdopted(After(fs, a, true), b, HoldsOn(EndOf(a), true, MarksOf(fs, a, held)));
    case Or(a, b) =>
      NothingAdopted(fs, a, held);
      NothingAdopted(After(fs, a, false), b, HoldsOn(EndOf(a), false, MarksOf(fs, a, held)));
    case Rel(_, a, b) =>
      NothingAdopted(fs, a, held);
      NothingAdopted(Placed(fs, a), b, Stays(fs, a) && MarksOf(fs, a, held).held);
    case _ =>
  }

  /** The same, asked of the operands of comparisons only. */
  predicate PlainOperands(e: Expr)
  {
    match e
    case NotE(a) => PlainOperands(a)
    case And(a, b) => PlainOperands(a) && PlainOperands(b)
    case Or(a, b) => PlainOperands(a) && PlainOperands(b)
    case Rel(_, a, b) => NoLiteralLeft(a) && NoLiteralLeft(b)
    case _ => true
  }

  lemma {:induction false} SoundOperands(fs: FS, e: Expr, held: bool)
    requires PlainOperands(e)
    ensures Sound(fs, e, held)
    decreases e
  {
    hide After, Placed, Compile, Stays, HoldsOn, MarksOf;
    match e
    case NotE(a) => SoundOperands(fs, a, held);
    case And(a, b) =>
      SoundOperands(fs, a, held);
      SoundOperands(After(fs, a, true), b, HoldsOn(EndOf(a), true, MarksOf(fs, a, held)));
    case Or(a, b) =>
      SoundOperands(fs, a, held);
      SoundOperands(After(fs, a, false), b, HoldsOn(EndOf(a), false, MarksOf(fs, a, held)));
    case Rel(_, a, b) =>
      NothingAdopted(fs, a, held);
      NothingAdopted(Placed(fs, a), b, Stays(fs, a) && MarksOf(fs, a, held).held);
    case _ =>
  }
}

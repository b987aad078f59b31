/** The code generated for an expression computes its value. */
module CodeCompile {
  import opened Base
  import opened LuaVm
  import opened CodeGen
  import opened CodeFlow
  import opened CodeShape
  import opened CodeMeaning
  import opened CodeRegs
  import opened CodeJumps
  import opened CodeNots
  import opened CodeValues

  const Start := ExpDesc(VTrue, [], [])

  /** The jumps `l` of the left operand join those of the right one. */
  function Joined(e: ExpDesc, want: bool, l: seq<nat>): ExpDesc { if want then e.(f := e.f + l) else e.(t := e.t + l) }

  /** What is unfinished about the left operand is outer to the right one. */
  lemma LeftIsOuter(fs: FS, want: bool, l: seq<nat>, outer: set<nat>)
    requires StateOk(fs, Exits(want, l), outer)
    ensures StateOk(fs, Start, outer + Elems(l))
  {
    assert outer + Elems(l) + Own(fs, Start) == outer + Own(fs, Exits(want, l));
    hide WF;
  }

  lemma JoinedHoles(fs: FS, e: ExpDesc, want: bool, l: seq<nat>, outer: set<nat>)
    ensures outer + Elems(l) + Own(fs, e) == outer + Own(fs, Joined(e, want, l))
  {
  }

  lemma JoinedState(fs: FS, e: ExpDesc, want: bool, l: seq<nat>, outer: set<nat>)
    requires StateOk(fs, e, outer + Elems(l)) && Distinct(l) && (forall p :: p in l ==> p !in outer)
    ensures StateOk(fs, Joined(e, want, l), outer)
  {
    hide WF;
    JoinedHoles(fs, e, want, l, outer);
    DistinctAppend(e.f, l);
    DistinctAppend(e.t, l);
    var e' := Joined(e, want, l);
    assert outer + Elems(l) + Elems(e.t) + Elems(e.f) == outer + Elems(e'.t) + Elems(e'.f);
    assert forall p :: p in l ==> p in outer + Elems(l);
  }

  lemma JoinedIntact(fs: FS, want: bool, l: seq<nat>, fs': FS, e: ExpDesc, i: nat)
    requires i < |fs.code| && i !in Own(fs, Exits(want, l)) && Intact(fs, Start, fs', e, i)
    ensures Intact(fs, Exits(want, l), fs', Joined(e, want, l), i)
  {
  }

  /** The test before a jump of the left operand is not touched. */
  lemma LeftControl(fs: FS, want: bool, l: seq<nat>, outer: set<nat>, fs': FS, e: ExpDesc, p: nat)
    requires StateOk(fs, Exits(want, l), outer) && Keeps(fs, Start, fs', e, outer + Elems(l)) && p in l
    ensures SameControl(fs.code, fs'.code, p)
  {
    Listed(fs, Exits(want, l), outer);
    LeftIsOuter(fs, want, l, outer);
    hide WF;
    if p > 0 {
      if p - 1 in outer + Elems(l) || p - 1 in Own(fs, Start) {
        HolesNoTest(fs, Start, outer + Elems(l));
      } else {
        assert Intact(fs, Start, fs', e, p - 1);
        assert p !in Own(fs, Start);
      }
    }
  }

  lemma JoinedKeeps(fs: FS, want: bool, l: seq<nat>, outer: set<nat>, fs': FS, e: ExpDesc)
    requires StateOk(fs, Exits(want, l), outer) && Keeps(fs, Start, fs', e, outer + Elems(l))
    ensures Keeps(fs, Exits(want, l), fs', Joined(e, want, l), outer)
  {
    hide WF, KindOk, Intact;
    JoinedState(fs', e, want, l, outer);
    forall i | 0 <= i < |fs.code| && i !in Own(fs, Exits(want, l))
      ensures Intact(fs, Exits(want, l), fs', Joined(e, want, l), i)
    {
      assert i !in Own(fs, Start);
      JoinedIntact(fs, want, l, fs', e, i);
    }
    JoinedHoles(fs, Start, want, l, outer);
  }

  /** The code of both operands: it leaves with the left one, or goes on as the code of the right
      one does from where the left one ended. */
  lemma ThenRun(fs: FS, want: bool, l: seq<nat>, outer: set<nat>, fs': FS, e: ExpDesc, w: World, x: nat, m: Machine)
    requires StateOk(fs, Exits(want, l), outer) && Keeps(fs, Start, fs', e, outer + Elems(l)) && Entry(fs.code, x)
    ensures Keeps(fs, Exits(want, l), fs', Joined(e, want, l), outer)
    ensures var (p, m1) := Leads(w, fs, Exits(want, l), outer, x, m);
      Leads(w, fs', Joined(e, want, l), outer, x, m) == if p in l then (p, m1)
        else Leads(w, fs', e, outer + Elems(l), p, m1)
  {
    hide Entry;
    JoinedKeeps(fs, want, l, outer, fs', e);
    OpRun(fs, Exits(want, l), fs', Joined(e, want, l), outer, w, x, m);
    JoinedHoles(fs', e, want, l, outer);
    var (p, m1) := Leads(w, fs, Exits(want, l), outer, x, m);
    hide Keeps, WF, KindOk;
    if p in l {
      assert p in Joined(e, want, l).t || p in Joined(e, want, l).f;
      KeepsState(fs, Exits(want, l), fs', Joined(e, want, l), outer);
      NoStore(fs', Joined(e, want, l), outer, p, m1);
    }
  }

  lemma KeepsState(fs: FS, e: ExpDesc, fs': FS, e': ExpDesc, outer: set<nat>)
    requires Keeps(fs, e, fs', e', outer)
    ensures StateOk(fs', e', outer)
  {
  }

  lemma EntryKept(fs: FS, e: ExpDesc, fs': FS, e': ExpDesc, outer: set<nat>, x: nat)
    requires Keeps(fs, e, fs', e', outer) && Entry(fs.code, x)
    ensures Entry(fs'.code, x)
  {
  }

  /** An expression is entered at the end of the code before it, or from a jump to there. */
  lemma MayEnter(fs: FS, outer: set<nat>, x: nat)
    requires StateOk(fs, Start, outer) && (x == |fs.code| || x in fs.jpc)
    ensures Entry(fs.code, x)
  {
    Listed(fs, Start, outer);
  }

  predicate LocalsBelow(e: Expr, n: int)
  {
    match e
    case Local(r) => 0 <= r < n
    case NotE(a) => LocalsBelow(a, n)
    case And(a, b) => LocalsBelow(a, n) && LocalsBelow(b, n)
    case Or(a, b) => LocalsBelow(a, n) && LocalsBelow(b, n)
    case Rel(_, a, b) => LocalsBelow(a, n) && LocalsBelow(b, n)
    case _ => true
  }

  lemma Traced(m: Machine, m': Machine, base: int, tr: seq<Event>)
    requires SameBelow(m, m', base)
    ensures SameBelow(m.(trace := tr), m'.(trace := tr), base)
  {
    forall r | r < base ensures Get(m'.(trace := tr), r) == Get(m.(trace := tr), r) { assert Get(m', r) == Get(m, r); }
  }

  /** The course of an expression depends on the local variables and on what has happened only. */
  lemma {:induction false} FlowSame(w: World, fs: FS, e: Expr, m: Machine, m': Machine, held: Option<Value>, base: int)
    requires LocalsBelow(e, base) && SameBelow(m, m', base) && m'.trace == m.trace
    ensures Flow(w, fs, e, m', held) == Flow(w, fs, e, m, held)
    decreases e
  {
    hide After, Placed, PassedOn, Turn, SameBelow, Compile;
    match e
    case Local(r) => assert Get(m', r) == Get(m, r) by { SameAt(m, m', base, r); }
    case NotE(a) => FlowSame(w, fs, a, m, m', held, base);
    case And(a, b) =>
      FlowSame(w, fs, a, m, m', held, base);
      var c := Flow(w, fs, a, m, held);
      Traced(m, m', base, c.tr);
      var way := Turn(EndOf(a), true, c);
      if way.Arrives? {
        FlowSame(w, After(fs, a, true), b, m.(trace := c.tr), m'.(trace := c.tr), way.held, base);
      }
    case Or(a, b) =>
      FlowSame(w, fs, a, m, m', held, base);
      var c := Flow(w, fs, a, m, held);
      Traced(m, m', base, c.tr);
      var way := Turn(EndOf(a), false, c);
      if way.Arrives? {
        FlowSame(w, After(fs, a, false), b, m.(trace := c.tr), m'.(trace := c.tr), way.held, base);
      }
    case Rel(_, a, b) =>
      FlowSame(w, fs, a, m, m', held, base);
      var c := Flow(w, fs, a, m, held);
      Traced(m, m', base, c.tr);
      FlowSame(w, Placed(fs, a), b, m.(trace := c.tr), m'.(trace := c.tr), PassedOn(fs, a, c.way), base);
    case _ =>
  }

  lemma SameAt(m: Machine, m': Machine, base: int, r: int)
    requires SameBelow(m, m', base) && r < base
    ensures Get(m', r) == Get(m, r)
  {
  }

  /** The run of the code of `e`, entered at `x` with `m`: it is to take the course of `e`. */
  function Asks(w: World, fs: FS, e: Expr, x: nat, m: Machine): Query
  {
    var c := Flow(w, fs, e, m, Holding(fs, x, m));
    Query(w, x, m, fs.free, c.v, c.tr, c.way)
  }

  /** What the generator promises of the code of an expression. */
  ghost predicate Compiled(w: World, fs: FS, e: Expr, outer: set<nat>, x: nat, m: Machine, fs': FS, e': ExpDesc)
  {
    var q := Asks(w, fs, e, x, m);
    && Good(q, fs', e', outer) && Tracks(q, fs', e', outer) && Keeps(fs, Start, fs', e', outer)
    && fs'.free == fs.free && Proper(fs', e') && (e'.k.VNonReloc? ==> e'.k.r < fs'.nact)
    && EndKind(fs', e'.k) == EndOf(e)
  }

  ghost predicate Enters(fs: FS, outer: set<nat>, x: nat)
  {
    StateOk(fs, Start, outer) && (x == |fs.code| || x in fs.jpc)
  }

  /** Nothing has been emitted for the expression. */
  lemma IdleGood(q: Query, fs: FS, e: ExpDesc, outer: set<nat>)
    requires Enters(fs, outer, q.x) && e.t == [] && e.f == [] && NoHoles(e.k) && KindOk(fs, e, outer)
    requires Holds(q, fs, e.k, q.m) && q.way == Arrives(Holding(fs, q.x, q.m))
    ensures Fine(q, fs, Start, fs, e, outer) && Tracks(q, fs, e, outer)
  {
    MayEnter(fs, outer, q.x);
    assert Own(fs, e) == Own(fs, Start);
    NoStore(fs, Start, outer, q.x, q.m);
    hide WF;
    KeepsSelf(fs, Start, fs, e, outer);
    Stopped(q, fs, outer + Own(fs, e), q.x, q.m);
  }

  lemma StrGood(w: World, fs: FS, s: int, outer: set<nat>, x: nat, m: Machine)
    requires Enters(fs, outer, x)
    ensures var (fs', e') := Compile(fs, Str(s)); Compiled(w, fs, Str(s), outer, x, m, fs', e')
  {
    hide WF;
    var (fs', e') := Compile(fs, Str(s));
    AddKState(fs, Start, outer, Text(s));
    IdleGood(Asks(w, fs, Str(s), x, m), fs', e', outer);
    assert Own(fs', Start) == Own(fs, Start);
    KeepsSelf(fs, Start, fs', Start, outer);
    KeepsTrans(fs, Start, fs', Start, fs', e', outer);
  }

  lemma NotGood(w: World, fs: FS, a: Expr, outer: set<nat>, x: nat, m: Machine)
    requires Enters(fs, outer, x) && var (fs1, e1) := Compile(fs, a); Compiled(w, fs, a, outer, x, m, fs1, e1)
    ensures var (fs', e') := Compile(fs, NotE(a)); Compiled(w, fs, NotE(a), outer, x, m, fs', e')
  {
    hide StateOk, Keeps, Means, Entry, CodeNot, Tracks, Flow, EndKind;
    var (fs1, e1) := Compile(fs, a);
    var q := Asks(w, fs, a, x, m);
    CodeNotGood(q, fs1, e1, outer);
    NotFlow(w, fs, a, m, Holding(fs, x, m));
    RelocBound(q, fs1, e1, outer);
    NotEnds(fs1, e1);
    var (fs', e') := CodeNot(fs1, e1);
    KeepsTrans(fs, Start, fs1, e1, fs', e', outer);
    NotProper(fs1, e1);
  }

  lemma NotFlow(w: World, fs: FS, a: Expr, m: Machine, held: Option<Value>)
    ensures var c := Flow(w, fs, a, m, held);
      Flow(w, fs, NotE(a), m, held) == Course(Bool(Falsy(c.v)), c.tr, NotWay(c.way, Constant(EndOf(a))))
  {
  }

  lemma RelocBound(q: Query, fs: FS, e: ExpDesc, outer: set<nat>)
    requires Good(q, fs, e, outer)
    ensures e.k.VReloc? ==> e.k.pc < |fs.code|
  {
  }

  lemma NotProper(fs: FS, e: ExpDesc)
    ensures var (fs', e') := CodeNot(fs, e); Proper(fs', e')
  {
    hide RemoveValues, Emit, Discharge2AnyReg;
  }

  lemma LogicGood(w: World, fs: FS, a: Expr, b: Expr, want: bool, outer: set<nat>, x: nat, m: Machine)
    requires Enters(fs, outer, x) && LocalsBelow(a, fs.nact) && LocalsBelow(b, fs.nact)
    ensures var (fs', e') := Compile(fs, Logic(want, a, b)); Compiled(w, fs, Logic(want, a, b), outer, x, m, fs', e')
    decreases Logic(want, a, b), 0
  {
    hide StateOk, Keeps, Means, Entry, GoIf, Good, Leads, Flow, Turn, SameBelow, Tracks, EndKind, Chooses, Holding,
      Compile, After, DischargeVars, RightWay;
    LogicCode(fs, a, b, want);
    var (fs1, e1) := Compile(fs, a);
    CompileGood(w, fs, a, outer, x, m);
    LeftGood(w, fs, a, want, outer, x, m);
    var qa := Turned(Asks(w, fs, a, x, m), EndOf(a), want);
    var (fs2, l) := GoIf(fs1, e1, want);
    var (p, m1) := Ends(qa, fs2, Exits(want, l), outer);
    var y := if p in l then |fs2.code| else p;
    RightGood(w, fs2, want, l, outer, b, y, m1);
    var (fs3, e3) := Compile(fs2, b);
    var (fs4, e4) := DischargeVars(fs3, e3);
    LocalsMore(b, fs.nact, fs.free);
    LogicAsks(w, fs, a, b, want, x, m, fs2, y, m1);
    LogicMeans(qa, AsksRight(w, fs2, b, y, m1), Asks(w, fs, Logic(want, a, b), x, m), fs2, want, l, outer, fs4, e4);
    ThenRun(fs2, want, l, outer, fs4, e4, w, x, m);
    KeepsTrans(fs, Start, fs2, Exits(want, l), fs4, Joined(e4, want, l), outer);
  }

  lemma LogicCode(fs: FS, a: Expr, b: Expr, want: bool)
    ensures var (fs1, e1) := Compile(fs, a); var (fs2, l) := GoIf(fs1, e1, want);
      var (fs3, e3) := Compile(fs2, b); var (fs4, e4) := DischargeVars(fs3, e3);
      && Compile(fs, Logic(want, a, b)) == (fs4, Joined(e4, want, l)) && After(fs, a, want) == fs2
      && EndOf(Logic(want, a, b)) == EndOf(b)
  {
    hide GoIfTrue, GoIfFalse, DischargeVars;
  }

  /** The left operand of `and` and `or`, once it is tested. */
  lemma LeftGood(w: World, fs: FS, a: Expr, want: bool, outer: set<nat>, x: nat, m: Machine)
    requires Enters(fs, outer, x)
    requires var (fs1, e1) := Compile(fs, a); Compiled(w, fs, a, outer, x, m, fs1, e1)
    ensures var (fs1, e1) := Compile(fs, a); var (fs2, l) := GoIf(fs1, e1, want);
      && Keeps(fs, Start, fs2, Exits(want, l), outer) && Entry(fs2.code, x) && StateOk(fs2, Exits(want, l), outer)
      && fs2.nact == fs.nact <= fs.free == fs2.free
    ensures var (fs1, e1) := Compile(fs, a); var (fs2, l) := GoIf(fs1, e1, want);
      var q := Turned(Asks(w, fs, a, x, m), EndOf(a), want); var (p, m1) := Ends(q, fs2, Exits(want, l), outer);
      && Chooses(q, fs2, Exits(want, l), outer, want)
      && SameBelow(m, m1, fs.free) && m1.trace == q.tr && (p in l <==> q.way.Leaves?)
      && Enters(fs2, outer + Elems(l), if p in l then |fs2.code| else p)
      && (q.way.Arrives? ==> q.way.held == Holding(fs2, p, m1))
  {
    hide StateOk, Keeps, Means, Entry, GoIf, Good, Leads, Flow, Turn, SameBelow, EndKind, Chooses, Compile, Holding;
    var (fs1, e1) := Compile(fs, a);
    var qa := Asks(w, fs, a, x, m);
    NactFree(fs, outer);
    GoIfChooses(qa, fs1, e1, outer, want);
    var (fs2, l) := GoIf(fs1, e1, want);
    EntersKeeps(fs, outer, x, fs1, e1, fs2, Exits(want, l));
    LeftIsOuter(fs2, want, l, outer);
    LeftExit(Turned(qa, EndOf(a), want), fs2, want, l, outer);
  }

  /** What is asked of the code of `and` and `or`, from what is asked of the right operand. */
  lemma LogicAsks(w: World, fs: FS, a: Expr, b: Expr, want: bool, x: nat, m: Machine, fs2: FS, p: nat, m1: Machine)
    requires LocalsBelow(b, fs.free) && fs2 == After(fs, a, want) && fs2.free == fs.free
    requires var qa := Turned(Asks(w, fs, a, x, m), EndOf(a), want);
      qa.way.Arrives? ==> SameBelow(m, m1, fs.free) && m1.trace == qa.tr && qa.way.held == Holding(fs2, p, m1)
    ensures var qa, qb := Turned(Asks(w, fs, a, x, m), EndOf(a), want), AsksRight(w, fs2, b, p, m1);
      Asks(w, fs, Logic(want, a, b), x, m) ==
        if qa.way.Leaves? then qa else qa.(v := qb.v, tr := qb.tr, way := qb.way)
  {
    hide After, Flow, Turn, SameBelow;
    var held := Holding(fs, x, m);
    LogicFlow(w, fs, a, b, want, m, held);
    var c := Flow(w, fs, a, m, held);
    var way := Turn(EndOf(a), want, c);
    if way.Arrives? {
      Traced(m, m1, fs.free, c.tr);
      FlowSame(w, fs2, b, m.(trace := c.tr), m1, way.held, fs.free);
    }
  }

  lemma LogicMeans(qa: Query, qb: Query, q: Query, fs: FS, want: bool, l: seq<nat>, outer: set<nat>, fs': FS,
      e: ExpDesc)
    requires Chooses(qa, fs, Exits(want, l), outer, want) && Keeps(fs, Start, fs', e, outer + Elems(l))
    requires Ends(qa, fs, Exits(want, l), outer).0 !in l ==>
      && (qb.x, qb.m) == Ends(qa, fs, Exits(want, l), outer)
      && Good(qb, fs', e, outer + Elems(l)) && Tracks(qb, fs', e, outer + Elems(l))
    requires qb.base == qa.base && qb.w == qa.w
    requires q == if qa.way.Leaves? then qa else qa.(v := qb.v, tr := qb.tr, way := qb.way)
    ensures Good(q, fs', Joined(e, want, l), outer) && Tracks(q, fs', Joined(e, want, l), outer)
  {
    hide StateOk, Keeps, Entry, Good, ExitTo, Own, Leads;
    ThenRun(fs, want, l, outer, fs', e, q.w, q.x, q.m);
    LeftExit(qa, fs, want, l, outer);
    var (p, m1) := Ends(qa, fs, Exits(want, l), outer);
    var e' := Joined(e, want, l);
    EntryKept(fs, Exits(want, l), fs', e', outer, q.x);
    KeepsState(fs, Exits(want, l), fs', e', outer);
    KeepsState(fs, Start, fs', e, outer + Elems(l));
    if p in l {
      LeftControl(fs, want, l, outer, fs', e, p);
      LeaveExit(q, fs, want, l, outer, fs', e, p, m1);
    } else {
      GoOnExit(q, qb, fs', e, want, l, outer);
    }
    GoodIntro(q, fs', e', outer);
  }

  lemma NactFree(fs: FS, outer: set<nat>)
    requires StateOk(fs, Start, outer)
    ensures 0 <= fs.nact <= fs.free
  {
  }

  lemma {:induction false} LocalsMore(e: Expr, n: int, n': int)
    requires LocalsBelow(e, n) && n <= n'
    ensures LocalsBelow(e, n')
  {
    match e
    case NotE(a) => LocalsMore(a, n, n');
    case And(a, b) => LocalsMore(a, n, n'); LocalsMore(b, n, n');
    case Or(a, b) => LocalsMore(a, n, n'); LocalsMore(b, n, n');
    case Rel(_, a, b) => LocalsMore(a, n, n'); LocalsMore(b, n, n');
    case _ =>
  }

  lemma GoodIntro(q: Query, fs: FS, e: ExpDesc, outer: set<nat>)
    requires StateOk(fs, e, outer) && Entry(fs.code, q.x)
    requires var (p, m) := Ends(q, fs, e, outer); Exit(q, fs, e, p, m)
    ensures Good(q, fs, e, outer)
  {
  }

  /** How the code of the left operand ends. */
  lemma LeftExit(q: Query, fs: FS, want: bool, l: seq<nat>, outer: set<nat>)
    requires Chooses(q, fs, Exits(want, l), outer, want)
    ensures var (p, m) := Ends(q, fs, Exits(want, l), outer);
      && SameBelow(q.m, m, q.base) && m.trace == q.tr
      && (if p in l then Falsy(q.v) == want && Brings(q, fs.code, p, m)
          else (p == |fs.code| || p in fs.jpc) && Falsy(q.v) != want && q.way.Arrives?)
  {
    hide StateOk, Own, Run;
  }

  /** Leaving with the value of the left operand. */
  lemma LeaveExit(q: Query, fs: FS, want: bool, l: seq<nat>, outer: set<nat>, fs': FS, e: ExpDesc, p: nat, m: Machine)
    requires Falsy(q.v) == want && p in l
    requires SameBelow(q.m, m, q.base) && m.trace == q.tr && Brings(q, fs.code, p, m)
    requires SameControl(fs.code, fs'.code, p) && StateOk(fs', e, outer + Elems(l))
    ensures Exit(q, fs', Joined(e, want, l), p, m)
  {
    hide WF, KindOk;
    assert p in outer + Elems(l);
  }

  /** Going on with the right operand. */
  lemma GoOnExit(q: Query, qb: Query, fs: FS, e: ExpDesc, want: bool, l: seq<nat>, outer: set<nat>)
    requires Good(qb, fs, e, outer + Elems(l)) && SameBelow(q.m, qb.m, q.base) && q.base == qb.base && q.v == qb.v
    requires q.tr == qb.tr && q.w == qb.w && q.way == qb.way
    ensures var (p, m) := Ends(qb, fs, e, outer + Elems(l)); Exit(q, fs, Joined(e, want, l), p, m)
  {
    var (p, m) := Ends(qb, fs, e, outer + Elems(l));
    hide Run;
    assert SameBelow(q.m, m, q.base) by { SameTrans(q.m, qb.m, m, q.base); }
    assert p in l ==> p in outer + Elems(l);
    EndNotOuter(fs, e, outer + Elems(l), p);
    hide StateOk, Own;
  }

  lemma SameTrans(m: Machine, m1: Machine, m2: Machine, base: int)
    requires SameBelow(m, m1, base) && SameBelow(m1, m2, base)
    ensures SameBelow(m, m2, base)
  {
    forall r | r < base ensures Get(m2, r) == Get(m, r) { assert Get(m1, r) == Get(m, r); }
  }

  lemma EndNotOuter(fs: FS, e: ExpDesc, outer: set<nat>, p: nat)
    requires StateOk(fs, e, outer) && (p in e.t || p in e.f || AtEnd(fs, e.k, p))
    ensures p !in outer
  {
    hide WF;
  }

  lemma EntersKeeps(fs: FS, outer: set<nat>, x: nat, fs1: FS, e1: ExpDesc, fs2: FS, e2: ExpDesc)
    requires Enters(fs, outer, x) && Keeps(fs, Start, fs1, e1, outer) && Keeps(fs1, e1, fs2, e2, outer)
    ensures Keeps(fs, Start, fs2, e2, outer) && Entry(fs2.code, x) && StateOk(fs2, e2, outer) && fs2.nact == fs.nact
  {
    hide StateOk, Entry, Keeps;
    KeepsTrans(fs, Start, fs1, e1, fs2, e2, outer);
    MayEnter(fs, outer, x);
    EntryKept(fs, Start, fs2, e2, outer, x);
    KeepsState(fs1, e1, fs2, e2, outer);
    KeepsNact(fs, Start, fs2, e2, outer);
  }

  lemma KeepsNact(fs: FS, e: ExpDesc, fs': FS, e': ExpDesc, outer: set<nat>)
    requires Keeps(fs, e, fs', e', outer)
    ensures fs'.nact == fs.nact
  {
  }

  /** What is asked of the right operand of `and` and `or`, once its variables are read. */
  function AsksRight(w: World, fs: FS, b: Expr, x: nat, m: Machine): Query
  {
    var q := Asks(w, fs, b, x, m);
    q.(way := RightWay(b, q.way))
  }

  /** Only a bare upvalue is still to be read. */
  lemma UpvalIs(fs: FS, e: Expr)
    ensures Compile(fs, e).1.k.VUpval? ==> e.Upval?
    decreases e
  {
    hide GoIfTrue, GoIfFalse, Exp2RK, Emit, Discharge2AnyReg;
    match e
    case And(a, b) =>
      var (fs1, e1) := Compile(fs, a);
      UpvalIs(GoIfTrue(fs1, e1).0, b);
    case Or(a, b) =>
      var (fs1, e1) := Compile(fs, a);
      UpvalIs(GoIfFalse(fs1, e1).0, b);
    case Rel(rel, a, b) =>
      var (fs1, e1) := Compile(fs, a);
      var (fs2, e2) := Exp2RK(fs1, e1);
      var (fs3, e3) := Compile(fs2, b);
      OperandKind(fs3, e2);
    case _ =>
  }

  lemma OperandKind(fs: FS, e: ExpDesc)
    ensures var k := Exp2RK(fs, e).1.k; k.VK? || k.VNonReloc?
  {
    hide Exp2Reg, FreeExp, AddK;
  }

  /** The right operand, from anywhere it may be entered. */
  lemma RightGood(w: World, fs: FS, want: bool, l: seq<nat>, outer: set<nat>, b: Expr, x: nat, m: Machine)
    requires Enters(fs, outer + Elems(l), x) && LocalsBelow(b, fs.nact)
    ensures var (fs3, e3) := Compile(fs, b); var (fs4, e4) := DischargeVars(fs3, e3);
      var q := AsksRight(w, fs, b, x, m);
      && Fine(q, fs, Start, fs4, e4, outer + Elems(l)) && Tracks(q, fs4, e4, outer + Elems(l))
      && fs4.free == fs.free && Proper(fs4, e4) && (e4.k.VNonReloc? ==> e4.k.r < fs4.nact)
      && EndKind(fs4, e4.k) == EndOf(b)
    decreases b, 2
  {
    hide StateOk, Keeps, Means, Entry, Good, Flow, Tracks, EndKind;
    CompileGood(w, fs, b, outer + Elems(l), x, m);
    var (fs3, e3) := Compile(fs, b);
    var q, q' := Asks(w, fs, b, x, m), AsksRight(w, fs, b, x, m);
    UpvalIs(fs, b);
    if b.Upval? { UpvalArrives(w, fs, b, m, Holding(fs, x, m)); }
    VarsEnd(fs3, e3);
    VarsReg(q, fs3, e3, outer + Elems(l));
    RightVars(q, q', fs3, e3, outer + Elems(l), b);
    var (fs4, e4) := DischargeVars(fs3, e3);
    KeepsTrans(fs, Start, fs3, e3, fs4, e4, outer + Elems(l));
  }

  lemma UpvalArrives(w: World, fs: FS, e: Expr, m: Machine, held: Option<Value>)
    requires e.Upval?
    ensures Flow(w, fs, e, m, held).way.Arrives? && Compile(fs, e).1.k.VUpval?
  {
  }

  lemma RightVars(q: Query, q': Query, fs: FS, e: ExpDesc, outer: set<nat>, b: Expr)
    requires Good(q, fs, e, outer) && Tracks(q, fs, e, outer) && (e.k.VUpval? <==> b.Upval?)
    requires q' == q.(way := RightWay(b, q.way)) && (b.Upval? ==> q.way.Arrives?)
    ensures var (fs', e') := DischargeVars(fs, e);
      && Fine(q', fs, e, fs', e', outer) && Tracks(q', fs', e', outer) && fs'.free == fs.free
  {
    hide StateOk, Keeps, Entry, Run, Holds, AtEnd;
    DischargeVarsFine(q, fs, e, outer);
    var (fs', e') := DischargeVars(fs, e);
    if b.Upval? {
      var (p, m) := Ends(q, fs', e', outer);
      assert Ends(q', fs', e', outer) == (p, m);
      SameExit(q, q', fs', e', p, m);
      NothingHeld(q', fs', e', outer);
    }
  }

  lemma SameExit(q: Query, q': Query, fs: FS, e: ExpDesc, p: nat, m: Machine)
    requires Exit(q, fs, e, p, m) && q' == q.(way := q'.way) && q.way.Arrives? && q'.way.Arrives?
    ensures Exit(q', fs, e, p, m)
  {
  }

  /** An operand that is in place stays there. */
  lemma OperandIdle(fs: FS, e: ExpDesc)
    requires e.t == [] && e.f == [] && ((e.k.VK? && e.k.i <= MAXINDEXRK) || e.k.VNonReloc?)
    ensures Exp2RK(fs, e) == (fs, e)
  {
  }

  lemma OperandStart(fs: FS, e: ExpDesc, outer: set<nat>)
    requires StateOk(fs, e, outer) && e.t == [] && e.f == [] && NoHoles(e.k)
    ensures StateOk(fs, Start, outer) && Own(fs, Start) == Own(fs, e) && Keeps(fs, e, fs, Start, outer)
  {
    assert Own(fs, Start) == Own(fs, e);
    hide WF;
    KeepsSelf(fs, e, fs, Start, outer);
  }

  predicate Operandy(k: Kind) { k.VK? || k.VNonReloc? }

  /** The value of an operand of a comparison. */
  lemma OperandValue(q: Query, fs: FS, k: Kind, m: Machine)
    requires Operandy(k) && Holds(q, fs, k, m)
    ensures Operand(fs.k, m, AsOperand(k)) == q.v && m.trace == q.tr
  {
  }

  lemma OperandsOk(fs: FS, ex: ExpDesc, ey: ExpDesc, outer: set<nat>)
    requires StateOk(fs, ex, outer) && StateOk(fs, ey, outer) && Operandy(ex.k) && Operandy(ey.k)
    ensures OperandOk(|fs.k|, AsOperand(ex.k)) && OperandOk(|fs.k|, AsOperand(ey.k))
  {
    hide WF;
  }

  lemma SameOwn(fs: FS, ex: ExpDesc, ey: ExpDesc)
    requires Operandy(ex.k) && Operandy(ey.k) && ex.t == ey.t && ex.f == ey.f
    ensures Own(fs, ex) == Own(fs, ey)
  {
  }

  /** Two operands are in place at the end of the same code, and are compared. */
  lemma CompareGood(qx: Query, qy: Query, fs: FS, ex: ExpDesc, ey: ExpDesc, outer: set<nat>, i: Instr, swap: bool,
      q: Query)
    requires Good(qx, fs, ex, outer) && Good(qy, fs, ey, outer) && fs.jpc == [] && Operandy(ex.k) && Operandy(ey.k)
    requires ex.t == [] && ex.f == [] && ey.t == [] && ey.f == []
    requires qx == qy.(v := qx.v) && q == qx.(v := q.v, tr := q.tr)
    requires i.Cmp? && i.left == AsOperand(if swap then ey.k else ex.k)
    requires i.right == AsOperand(if swap then ex.k else ey.k)
    requires var (l, r) := if swap then (qy.v, qx.v) else (qx.v, qy.v);
      q.v == Bool(Compare(q.w, i.op, l, r, qx.tr) == i.cond) && q.tr == qx.tr + [Event(i.op, l, r)]
    ensures var fs', e' := fs.(code := fs.code + [i, Jmp(NO_JUMP)]), ey.(k := VJmp(|fs.code| + 1));
      Good(q, fs', e', outer) && Keeps(fs, ey, fs', e', outer)
  {
    var fs', e' := fs.(code := fs.code + [i, Jmp(NO_JUMP)]), ey.(k := VJmp(|fs.code| + 1));
    OperandsOk(fs, ex, ey, outer);
    AppendTestOp(fs, ey, outer, i, e');
    SameOwn(fs, ex, ey);
    hide StateOk, Entry, Own, Run, Keeps;
    var p, m := GoesOn(qy, fs, ey, fs', e', outer);
    var (px, mx) := Ends(qx, fs, ex, outer);
    ExitHolds(qy, fs, ey, p, m);
    ExitHolds(qx, fs, ex, px, mx);
    OperandValue(qy, fs, ey.k, m);
    OperandValue(qx, fs, ex.k, mx);
    EntryKept(fs, ey, fs', e', outer, q.x);
    KeepsState(fs, ey, fs', e', outer);
    EndStops(q, fs', e', outer, |fs.code|, m);
    ExitEnd(q, fs', e', |fs.code|, m);
    GoodIntro(q, fs', e', outer);
  }
  /** The left operand of a comparison is in place when the right one is entered. */
  lemma LeftOperand(qa: Query, fs: FS, outer: set<nat>, fs1: FS, e1: ExpDesc, fs2: FS, e2: ExpDesc)
    requires Enters(fs, outer, qa.x) && Keeps(fs, Start, fs1, e1, outer) && Fine(qa, fs1, e1, fs2, e2, outer)
    requires OperandAt(fs1, fs2, e2)
    ensures Keeps(fs, Start, fs2, Start, outer) && StateOk(fs2, Start, outer) && Entry(fs2.code, qa.x)
    ensures Own(fs2, Start) == Own(fs2, e2)
    ensures fs2.nact == fs.nact
    ensures var (p, m) := Ends(qa, fs2, e2, outer);
      Enters(fs2, outer, p) && Holds(qa, fs2, e2.k, m) && SameBelow(qa.m, m, qa.base)
  {
    hide StateOk, Keeps, Entry, Run, Own, Holds;
    OperandStart(fs2, e2, outer);
    KeepsTrans(fs, Start, fs1, e1, fs2, e2, outer);
    KeepsTrans(fs, Start, fs2, e2, fs2, Start, outer);
    KeepsNact(fs, Start, fs2, Start, outer);
    EntryKept(fs2, e2, fs2, Start, outer, qa.x);
    var (p, m) := Ends(qa, fs2, e2, outer);
    ExitHolds(qa, fs2, e2, p, m);
  }

  /** After the code of the right operand, both are in place. */
  lemma BothOperands(qa: Query, qb: Query, fs: FS, ex: ExpDesc, outer: set<nat>, fs': FS, ey: ExpDesc)
    requires StateOk(fs, Start, outer) && StateOk(fs, ex, outer) && Entry(fs.code, qa.x)
    requires Keeps(fs, Start, fs', ey, outer) && Good(qb, fs', ey, outer)
    requires ex.t == [] && ex.f == [] && ey.t == [] && ey.f == [] && Operandy(ex.k) && Operandy(ey.k)
    requires fs.free <= fs'.free
    requires qb.w == qa.w && (qb.x, qb.m) == Ends(qa, fs, Start, outer) && qa.way.Arrives?
    requires qa.base <= fs.free == qb.base
    requires (qb.x == |fs.code| || qb.x in fs.jpc) && Holds(qa, fs, ex.k, qb.m) && SameBelow(qa.m, qb.m, qa.base)
    ensures Good(qa.(v := qb.v, tr := qb.tr), fs', ey, outer) && Good(qa.(tr := qb.tr), fs', ey.(k := ex.k), outer)
  {
    hide Keeps, Entry, Run, Own, WF;
    assert outer + Elems([]) == outer && Joined(ey, true, []) == ey && Exits(true, []) == Start;
    ThenRun(fs, true, [], outer, fs', ey, qa.w, qa.x, qa.m);
    EntryKept(fs, Start, fs', ey, outer, qa.x);
    KeepsConstants(fs, Start, fs', ey, outer);
    var (p, m) := Ends(qb, fs', ey, outer);
    ExitHolds(qb, fs', ey, p, m);
    assert SameBelow(qa.m, m, qa.base) by {
      forall r | r < qa.base ensures Get(m, r) == Get(qa.m, r) { assert Get(m, r) == Get(qb.m, r); }
    }
    var qy, qx, ex' := qa.(v := qb.v, tr := qb.tr), qa.(tr := qb.tr), ey.(k := ex.k);
    ExitEnd(qy, fs', ey, p, m);
    GoodIntro(qy, fs', ey, outer);
    SameOwn(fs', ex', ey);
    OperandKept(qa, qb, fs, ex.k, fs', ey.k, m);
    ExitEnd(qx, fs', ex', p, m);
    GoodIntro(qx, fs', ex', outer);
  }

  lemma KeepsConstants(fs: FS, e: ExpDesc, fs': FS, e': ExpDesc, outer: set<nat>)
    requires Keeps(fs, e, fs', e', outer)
    ensures fs.k <= fs'.k && StateOk(fs', e', outer)
  {
  }

  lemma OperandKept(qa: Query, qb: Query, fs: FS, kx: Kind, fs': FS, ky: Kind, m: Machine)
    requires Operandy(kx) && Operandy(ky) && Holds(qa, fs, kx, qb.m) && Holds(qb, fs', ky, m)
    requires SameBelow(qb.m, m, qb.base) && fs.k <= fs'.k
    requires kx.VNonReloc? ==> kx.r < qb.base
    ensures Holds(qa.(tr := qb.tr), fs', kx, m)
  {
    if kx.VNonReloc? { assert Get(m, kx.r) == Get(qb.m, kx.r); }
  }

  /** The comparison as codecomp makes it. */
  function Comparison(rel: Rel, o1: RK, o2: RK): Instr
  {
    if Swapped(rel) then Cmp(OpOf(rel), true, o2, o1) else Cmp(OpOf(rel), rel != NE, o1, o2)
  }

  lemma CodeCompCode(fs: FS, fs1: FS, fs2: FS, ex: ExpDesc, fs3: FS, e3: ExpDesc, rel: Rel)
    requires OperandAt(fs1, fs2, ex) && fs1.nact <= fs1.free && fs3.free == fs2.free && fs3.nact == fs2.nact
    requires var (fs4, ey) := Exp2RK(fs3, e3); OperandAt(fs3, fs4, ey)
    ensures var (fs4, ey) := Exp2RK(fs3, e3); var d := Discharge(fs4);
      CodeComp(fs3, rel, ex, e3) ==
        (d.(code := d.code + [Comparison(rel, AsOperand(ex.k), AsOperand(ey.k)), Jmp(NO_JUMP)], free := fs1.free),
          ex.(k := VJmp(|fs4.code| + 1)))
  {
    hide Exp2RK, PatchList, FreeExp;
    OperandIdle(fs3, ex);
    var (fs4, ey) := Exp2RK(fs3, e3);
    FreedBoth(fs1, fs2, ex, fs3, fs4, ey);
    var fs5 := FreeExp(FreeExp(fs4, ey.k), ex.k);
    var d := Discharge(fs4);
    var i := Comparison(rel, AsOperand(ex.k), AsOperand(ey.k));
    assert CondJump(fs5, i).code == d.code + [i] + [Jmp(NO_JUMP)] == d.code + [i, Jmp(NO_JUMP)];
    assert CondJump(fs5, i) == d.(code := d.code + [i, Jmp(NO_JUMP)], free := fs1.free);
  }

  lemma FreedBoth(fs1: FS, fs2: FS, ex: ExpDesc, fs3: FS, fs4: FS, ey: ExpDesc)
    requires OperandAt(fs1, fs2, ex) && fs1.nact <= fs1.free && fs3.free == fs2.free && fs3.nact == fs2.nact
    requires OperandAt(fs3, fs4, ey)
    ensures FreeExp(FreeExp(fs4, ey.k), ex.k) == fs4.(free := fs1.free)
  {
  }

  /** codecomp. */
  lemma CompGood(qa: Query, qb: Query, fs: FS, outer: set<nat>, ex: ExpDesc, ey: ExpDesc, rel: Rel, free: int, q: Query)
    requires Good(qa.(v := qb.v, tr := qb.tr), fs, ey, outer) && Good(qa.(tr := qb.tr), fs, ey.(k := ex.k), outer)
    requires fs.nact <= free
    requires ex.t == [] && ex.f == [] && ey.t == [] && ey.f == [] && Operandy(ex.k) && Operandy(ey.k)
    requires var (l, r) := if Swapped(rel) then (qb.v, qa.v) else (qa.v, qb.v);
      q == qa.(v := Bool(Compare(qa.w, OpOf(rel), l, r, qb.tr) == (rel != NE)), tr := qb.tr + [Event(OpOf(rel), l, r)])
    ensures var d := Discharge(fs); var i := Comparison(rel, AsOperand(ex.k), AsOperand(ey.k));
      Fine(q, fs, ey, d.(code := d.code + [i, Jmp(NO_JUMP)], free := free), ex.(k := VJmp(|fs.code| + 1)), outer)
  {
    hide Keeps, Good;
    var qy, qx := qa.(v := qb.v, tr := qb.tr), qa.(tr := qb.tr);
    var d, i := Discharge(fs), Comparison(rel, AsOperand(ex.k), AsOperand(ey.k));
    DischargeGood(qy, fs, ey, outer);
    DischargeGood(qx, fs, ey.(k := ex.k), outer);
    var fs', e' := d.(code := d.code + [i, Jmp(NO_JUMP)]), ex.(k := VJmp(|fs.code| + 1));
    assert ey.(k := VJmp(|fs.code| + 1)) == e';
    CompareGood(qx, qy, d, ey.(k := ex.k), ey, outer, i, Swapped(rel), q);
    GoodState(qy, fs, ey, outer);
    KeepsTrans(fs, ey, d, ey, fs', e', outer);
    FreeFine(q, fs', e', outer, free);
    KeepsTrans(fs, ey, fs', e', fs'.(free := free), e', outer);
  }

  lemma GoodState(q: Query, fs: FS, e: ExpDesc, outer: set<nat>)
    requires Good(q, fs, e, outer)
    ensures StateOk(fs, e, outer)
  {
  }

  lemma RelGood(w: World, fs: FS, rel: Rel, a: Expr, b: Expr, outer: set<nat>, x: nat, m: Machine)
    requires Enters(fs, outer, x) && LocalsBelow(a, fs.nact) && LocalsBelow(b, fs.nact)
    ensures var (fs', e') := Compile(fs, Rel(rel, a, b)); Compiled(w, fs, Rel(rel, a, b), outer, x, m, fs', e')
    decreases Rel(rel, a, b), 0
  {
    hide StateOk, Keeps, Means, Entry, Exp2RK, Good, Leads, Flow, SameBelow, Tracks, EndKind, Yield, Holding, PassedOn,
      OperandAt, Compile, Holds;
    CompileGood(w, fs, a, outer, x, m);
    RelLeft(w, fs, a, outer, x, m);
    var (fs1, e1) := Compile(fs, a);
    var (fs2, e2) := Exp2RK(fs1, e1);
    var (p, m1) := Ends(Given(Asks(w, fs, a, x, m)), fs2, e2, outer);
    CompileGood(w, fs2, b, outer, p, m1);
    RelRight(w, fs2, b, outer, p, m1);
    LocalsMore(b, fs.nact, fs.free);
    RelAsks(w, fs, rel, a, b, x, m, p, m1);
    var (fs3, e3) := Compile(fs2, b);
    RelCode(fs, rel, a, b);
    Compared(Given(Asks(w, fs, a, x, m)), Given(Asks(w, fs2, b, p, m1)), Asks(w, fs, Rel(rel, a, b), x, m), outer, rel,
      fs, fs1, fs2, e2, fs3, e3);
  }

  lemma RelCode(fs: FS, rel: Rel, a: Expr, b: Expr)
    ensures var (fs1, e1) := Compile(fs, a); var (fs2, e2) := Exp2RK(fs1, e1); var (fs3, e3) := Compile(fs2, b);
      Compile(fs, Rel(rel, a, b)) == CodeComp(fs3, rel, e2, e3) && Placed(fs, a) == fs2
  {
    hide Exp2RK, CodeComp;
  }

  /** The code of both operands and their comparison. */
  lemma Compared(ga: Query, gb: Query, q: Query, outer: set<nat>, rel: Rel, fs: FS, fs1: FS, fs2: FS, e2: ExpDesc,
      fs3: FS, e3: ExpDesc)
    requires StateOk(fs, Start, outer) && StateOk(fs2, Start, outer) && StateOk(fs2, e2, outer) && Entry(fs2.code, ga.x)
    requires Keeps(fs, Start, fs2, Start, outer) && OperandAt(fs1, fs2, e2) && fs1.free == fs.free == ga.base
    requires fs2.nact == fs1.nact == fs.nact <= fs.free && fs3.free == fs2.free == gb.base && fs3.nact == fs2.nact
    requires var (fs4, e4) := Exp2RK(fs3, e3);
      OperandAt(fs3, fs4, e4) && Keeps(fs2, Start, fs4, e4, outer) && Good(gb, fs4, e4, outer)
    requires gb.w == ga.w && (gb.x, gb.m) == Ends(ga, fs2, Start, outer) && Enters(fs2, outer, gb.x)
    requires Holds(ga, fs2, e2.k, gb.m) && SameBelow(ga.m, gb.m, ga.base) && ga.way == Arrives(None)
    requires var (l, r) := if Swapped(rel) then (gb.v, ga.v) else (ga.v, gb.v);
      q == ga.(v := Bool(Compare(ga.w, OpOf(rel), l, r, gb.tr) == (rel != NE)), tr := gb.tr + [Event(OpOf(rel), l, r)])
    ensures var (fs', e') := CodeComp(fs3, rel, e2, e3);
      && Good(q, fs', e', outer) && Tracks(q, fs', e', outer) && Keeps(fs, Start, fs', e', outer)
      && fs'.free == fs.free && e'.k.VJmp? && EndKind(fs', e'.k).EndsTest?
  {
    hide StateOk, Keeps, Means, Entry, Exp2RK, Good, CodeComp, Leads, Own, Discharge, AsOperand, Comparison, Holds,
      SameBelow, Tracks, EndKind, OperandAt;
    var (fs4, e4) := Exp2RK(fs3, e3);
    OperandFacts(fs1, fs2, e2);
    OperandFacts(fs3, fs4, e4);
    BothOperands(ga, gb, fs2, e2, outer, fs4, e4);
    CompGood(ga, gb, fs4, outer, e2, e4, rel, fs.free, q);
    CodeCompCode(fs, fs1, fs2, e2, fs3, e3, rel);
    var (fs', e') := CodeComp(fs3, rel, e2, e3);
    KeepsTrans(fs, Start, fs2, Start, fs4, e4, outer);
    KeepsTrans(fs, Start, fs4, e4, fs', e', outer);
    NothingHeld(q, fs', e', outer);
    TestEnds(fs', e');
  }

  lemma OperandFacts(fs: FS, fs': FS, e: ExpDesc)
    requires OperandAt(fs, fs', e)
    ensures e.t == [] && e.f == [] && Operandy(e.k) && fs.free <= fs'.free && fs'.nact == fs.nact
    ensures e.k.VNonReloc? ==> e.k.r < fs.nact || e.k.r < fs'.free
  {
  }

  /** The left operand of a comparison, once it is in place. */
  lemma RelLeft(w: World, fs: FS, a: Expr, outer: set<nat>, x: nat, m: Machine)
    requires Enters(fs, outer, x) && var (fs1, e1) := Compile(fs, a); Compiled(w, fs, a, outer, x, m, fs1, e1)
    ensures var (fs1, e1) := Compile(fs, a); var (fs2, e2) := Exp2RK(fs1, e1);
      && OperandAt(fs1, fs2, e2) && fs1.free == fs.free && fs2.nact == fs1.nact == fs.nact <= fs.free
      && Keeps(fs, Start, fs2, Start, outer) && StateOk(fs2, Start, outer) && StateOk(fs2, e2, outer)
      && Entry(fs2.code, x)
    ensures var (fs1, e1) := Compile(fs, a); var (fs2, e2) := Exp2RK(fs1, e1); var ga := Given(Asks(w, fs, a, x, m));
      var (p, m1) := Ends(ga, fs2, e2, outer);
      && Enters(fs2, outer, p) && Holds(ga, fs2, e2.k, m1) && SameBelow(m, m1, fs.free) && m1.trace == ga.tr
      && (p, m1) == Ends(ga, fs2, Start, outer) && Holding(fs2, p, m1) == PassedOn(fs, a, Asks(w, fs, a, x, m).way)
  {
    hide StateOk, Keeps, Means, Entry, Exp2RK, Good, Leads, Own, Holds, Flow, SameBelow, Tracks, EndKind, Yield,
      Holding,
      PassedOn, Compile;
    var (fs1, e1) := Compile(fs, a);
    var qa := Asks(w, fs, a, x, m);
    NactFree(fs, outer);
    KeepsNact(fs, Start, fs1, e1, outer);
    Exp2RKGood(qa, fs1, e1, outer);
    var ga := Given(qa);
    var (fs2, e2) := Exp2RK(fs1, e1);
    LeftOperand(ga, fs, outer, fs1, e1, fs2, e2);
    var (p, m1) := Ends(ga, fs2, e2, outer);
    GoodState(ga, fs2, e2, outer);
    SameLeads(w, fs2, e2, Start, outer, x, m);
    RelHeld(w, fs, a, outer, x, m);
    OperandTrace(ga, fs2, e2.k, m1);
  }

  /** The right operand of a comparison, once it is in place. */
  lemma RelRight(w: World, fs: FS, b: Expr, outer: set<nat>, x: nat, m: Machine)
    requires Enters(fs, outer, x) && var (fs1, e1) := Compile(fs, b); Compiled(w, fs, b, outer, x, m, fs1, e1)
    ensures var (fs1, e1) := Compile(fs, b); var (fs2, e2) := Exp2RK(fs1, e1);
      && OperandAt(fs1, fs2, e2) && fs1.free == fs.free && fs1.nact == fs.nact
      && Keeps(fs, Start, fs2, e2, outer) && Good(Given(Asks(w, fs, b, x, m)), fs2, e2, outer)
  {
    hide StateOk, Keeps, Means, Entry, Exp2RK, Good, Flow, Tracks, EndKind, Yield, Holding, Compile;
    var (fs1, e1) := Compile(fs, b);
    NactFree(fs, outer);
    KeepsNact(fs, Start, fs1, e1, outer);
    Exp2RKGood(Asks(w, fs, b, x, m), fs1, e1, outer);
    var (fs2, e2) := Exp2RK(fs1, e1);
    KeepsTrans(fs, Start, fs1, e1, fs2, e2, outer);
  }

  lemma TestEnds(fs: FS, e: ExpDesc)
    requires e.k.VJmp?
    ensures EndKind(fs, e.k).EndsTest?
  {
  }

  /** What is held when the right operand of a comparison is entered. */
  lemma RelHeld(w: World, fs: FS, a: Expr, outer: set<nat>, x: nat, m: Machine)
    requires var (fs1, e1) := Compile(fs, a); Compiled(w, fs, a, outer, x, m, fs1, e1)
    ensures var (fs1, e1) := Compile(fs, a); var q := Asks(w, fs, a, x, m);
      var (fs2, e2) := Exp2RK(fs1, e1); var (p, m1) := Ends(q, fs2, e2, outer);
      Holding(fs2, p, m1) == PassedOn(fs, a, q.way)
  {
    hide StateOk, Keeps, Means, Entry, Exp2RK, Good, Leads, Flow, EndKind, Compile, Holding;
    var (fs1, e1) := Compile(fs, a);
    PassesOn(Asks(w, fs, a, x, m), fs1, e1, outer);
  }

  /** What is asked of the code of a comparison, from what is asked of its operands. */
  lemma RelAsks(w: World, fs: FS, rel: Rel, a: Expr, b: Expr, x: nat, m: Machine, p: nat, m1: Machine)
    requires LocalsBelow(b, fs.free) && SameBelow(m, m1, fs.free) && m1.trace == Asks(w, fs, a, x, m).tr
    requires Holding(Placed(fs, a), p, m1) == PassedOn(fs, a, Asks(w, fs, a, x, m).way)
    ensures var ga, gb := Given(Asks(w, fs, a, x, m)), Given(Asks(w, Placed(fs, a), b, p, m1));
      var (l, r) := if Swapped(rel) then (gb.v, ga.v) else (ga.v, gb.v);
      Asks(w, fs, Rel(rel, a, b), x, m)
        == ga.(v := Bool(Compare(w, OpOf(rel), l, r, gb.tr) == (rel != NE)), tr := gb.tr + [Event(OpOf(rel), l, r)])
  {
    hide Placed, PassedOn, SameBelow, Holding;
    var c := Flow(w, fs, a, m, Holding(fs, x, m));
    FlowSame(w, Placed(fs, a), b, m.(trace := c.tr), m1, PassedOn(fs, a, c.way),
      fs.free) by { Traced(m, m1, fs.free, c.tr); }
  }

  lemma SameLeads(w: World, fs: FS, e: ExpDesc, e': ExpDesc, outer: set<nat>, x: nat, m: Machine)
    requires Own(fs, e') == Own(fs, e)
    ensures Leads(w, fs, e', outer, x, m) == Leads(w, fs, e, outer, x, m)
  {
  }

  lemma OperandTrace(q: Query, fs: FS, k: Kind, m: Machine)
    requires Operandy(k) && Holds(q, fs, k, m)
    ensures m.trace == q.tr
  {
  }

  lemma CompileGood(w: World, fs: FS, e: Expr, outer: set<nat>, x: nat, m: Machine)
    requires Enters(fs, outer, x) && LocalsBelow(e, fs.nact)
    ensures var (fs', e') := Compile(fs, e); Compiled(w, fs, e, outer, x, m, fs', e')
    decreases e, 1
  {
    hide StateOk, Keeps, Means, Entry, Good;
    match e
    case NotE(a) =>
      CompileGood(w, fs, a, outer, x, m);
      NotGood(w, fs, a, outer, x, m);
    case And(a, b) => LogicGood(w, fs, a, b, true, outer, x, m);
    case Or(a, b) => LogicGood(w, fs, a, b, false, outer, x, m);
    case Rel(rel, a, b) => RelGood(w, fs, rel, a, b, outer, x, m);
    case Str(s) => StrGood(w, fs, s, outer, x, m);
    case _ =>
      var (fs', e') := Compile(fs, e);
      IdleGood(Asks(w, fs, e, x, m), fs, e', outer);
  }
}

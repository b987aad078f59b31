/** Loading a dumped function gives the function back. */
module DumpRoundTrip {
  import opened Base
  import opened Dump

  predicate StrOk(s: Option<Str>) { s.Some? ==> |s.value| + 1 < TWO64 }

  /** The sizes and numbers fit their fields. */
  predicate Fits(f: Proto)
  {
    && StrOk(f.source) && 0 <= f.linedefined < TWO31 && 0 <= f.lastlinedefined < TWO31
    && |f.code| < TWO31 && (forall i :: 0 <= i < |f.code| ==> 0 <= f.code[i] < TWO32)
    && |f.k| < TWO31 && (forall i :: 0 <= i < |f.k| ==> ConstOk(f.k[i]))
    && |f.p| < TWO31 && (forall i :: 0 <= i < |f.p| ==> Fits(f.p[i]))
    && DebugFits(f)
  }

  predicate DebugFits(f: Proto)
  {
    && |f.lineinfo| < TWO31 && (forall i :: 0 <= i < |f.lineinfo| ==> -TWO31 <= f.lineinfo[i] < TWO31)
    && |f.locvars| < TWO31 && (forall i :: 0 <= i < |f.locvars| ==> LocVarOk(f.locvars[i]))
    && |f.upvalues| < TWO31 && (forall i :: 0 <= i < |f.upvalues| ==> StrOk(f.upvalues[i]))
  }

  /** The source that a loaded function gets: its own, or that of the function around it (`loaded`)
      if it was not dumped. */
  function SourceOf(f: Proto, parent: Option<Str>, loaded: Option<Str>, strip: bool): Option<Str>
  {
    if f.source == parent || strip || f.source.None? then loaded else f.source
  }

  /** What comes back: with `strip`, without debug information. */
  function Restored(f: Proto, parent: Option<Str>, loaded: Option<Str>, strip: bool): Proto
    decreases f, 1
  {
    var s := SourceOf(f, parent, loaded, strip);
    var g := f.(source := s, p := RestoredProtos(f, 0, s, strip));
    if strip then g.(lineinfo := [], locvars := [], upvalues := []) else g
  }

  function RestoredProtos(f: Proto, i: nat, loaded: Option<Str>, strip: bool): seq<Proto>
    decreases f, 0, |f.p| - i
  {
    if i >= |f.p| then [] else [Restored(f.p[i], f.source, loaded, strip)] + RestoredProtos(f, i + 1, loaded, strip)
  }

  /** Every function in `f` passes the check of its code. */
  predicate Checked(f: Proto, check: Proto -> bool)
  {
    check(f) && forall i :: 0 <= i < |f.p| ==> Checked(f.p[i], check)
  }

  lemma CodeInverse(l: seq<int>, rest: Str)
    requires |l| < TWO31 && forall i :: 0 <= i < |l| ==> 0 <= l[i] < TWO32
    ensures LoadVector(DumpVector(l, DumpInstr) + rest, LoadInstr) == Ok(l, rest)
  {
    forall i | 0 <= i < |l| ensures Inverse(DumpInstr, LoadInstr, l[i]) {
      forall r ensures LoadInstr(DumpInstr(l[i]) + r) == Ok(l[i], r) { InstrInverse(l[i], r); }
    }
    VectorInverse(l, DumpInstr, LoadInstr, rest);
  }

  lemma ConstsInverse(l: seq<Const>, rest: Str)
    requires |l| < TWO31 && forall i :: 0 <= i < |l| ==> ConstOk(l[i])
    ensures LoadVector(DumpVector(l, DumpConst) + rest, LoadConst) == Ok(l, rest)
  {
    forall i | 0 <= i < |l| ensures Inverse(DumpConst, LoadConst, l[i]) {
      forall r ensures LoadConst(DumpConst(l[i]) + r) == Ok(l[i], r) { ConstInverse(l[i], r); }
    }
    VectorInverse(l, DumpConst, LoadConst, rest);
  }

  lemma LinesInverse(l: seq<int>, rest: Str)
    requires |l| < TWO31 && forall i :: 0 <= i < |l| ==> -TWO31 <= l[i] < TWO31
    ensures LoadVector(DumpVector(l, DumpInt) + rest, LoadRaw) == Ok(l, rest)
  {
    forall i | 0 <= i < |l| ensures Inverse(DumpInt, LoadRaw, l[i]) {
      forall r ensures LoadRaw(DumpInt(l[i]) + r) == Ok(l[i], r) { RawInverse(l[i], r); }
    }
    VectorInverse(l, DumpInt, LoadRaw, rest);
  }

  lemma LocVarsInverse(l: seq<LocVar>, rest: Str)
    requires |l| < TWO31 && forall i :: 0 <= i < |l| ==> LocVarOk(l[i])
    ensures LoadVector(DumpVector(l, DumpLocVar) + rest, LoadLocVar) == Ok(l, rest)
  {
    forall i | 0 <= i < |l| ensures Inverse(DumpLocVar, LoadLocVar, l[i]) {
      forall r ensures LoadLocVar(DumpLocVar(l[i]) + r) == Ok(l[i], r) { LocVarInverse(l[i], r); }
    }
    VectorInverse(l, DumpLocVar, LoadLocVar, rest);
  }

  lemma StringsInverse(l: seq<Option<Str>>, rest: Str)
    requires |l| < TWO31 && forall i :: 0 <= i < |l| ==> StrOk(l[i])
    ensures LoadVector(DumpVector(l, DumpString) + rest, LoadString) == Ok(l, rest)
  {
    forall i | 0 <= i < |l| ensures Inverse(DumpString, LoadString, l[i]) {
      forall r ensures LoadString(DumpString(l[i]) + r) == Ok(l[i], r) { StringInverse(l[i], r); }
    }
    VectorInverse(l, DumpString, LoadString, rest);
  }

  lemma HeadInverse(f: Proto, parent: Option<Str>, loaded: Option<Str>, strip: bool, rest: Str)
    requires Fits(f)
    ensures LoadHead(DumpHead(f, parent, strip) + rest, loaded) ==
      Ok(Head(SourceOf(f, parent, loaded, strip), f.linedefined, f.lastlinedefined,
        [f.nups, f.numparams, f.isVararg, f.maxstacksize], f.code, f.k), rest)
  {
    hide DumpVector, LoadVector, DumpString, LoadString, DumpInt, LoadInt, LoadBlock;
    var source := if f.source == parent || strip then None else f.source;
    var bytes := [f.nups, f.numparams, f.isVararg, f.maxstacksize];
    var b5 := DumpVector(f.k, DumpConst) + rest;
    var b4 := DumpVector(f.code, DumpInstr) + b5;
    var b3 := bytes + b4;
    var b2 := DumpInt(f.lastlinedefined) + b3;
    var b1 := DumpInt(f.linedefined) + b2;
    assert DumpHead(f, parent, strip) + rest == DumpString(source) + b1;
    StringInverse(source, b1);
    IntInverse(f.linedefined, b2);
    IntInverse(f.lastlinedefined, b3);
    BlockInverse(bytes, b4);
    CodeInverse(f.code, b5);
    ConstsInverse(f.k, rest);
  }

  lemma TailInverse(f: Proto, strip: bool, rest: Str)
    requires DebugFits(f)
    ensures LoadTail(DumpDebug(f, strip) + rest)
      == Ok(if strip then Tail([], [], []) else Tail(f.lineinfo, f.locvars, f.upvalues), rest)
  {
    hide DumpVector, LoadVector;
    var lineinfo := if strip then [] else f.lineinfo;
    var locvars := if strip then [] else f.locvars;
    var upvalues := if strip then [] else f.upvalues;
    var b2 := DumpVector(upvalues, DumpString) + rest;
    var b1 := DumpVector(locvars, DumpLocVar) + b2;
    assert DumpDebug(f, strip) + rest == DumpVector(lineinfo, DumpInt) + b1;
    LinesInverse(lineinfo, b1);
    LocVarsInverse(locvars, b2);
    StringsInverse(upvalues, rest);
  }

  /** A dumped function is read back, at any depth of nesting and whatever comes after it. */
  lemma {:induction false} FunctionInverse(f: Proto, parent: Option<Str>, loaded: Option<Str>, strip: bool,
      check: Proto -> bool, rest: Str)
    requires Fits(f) && Checked(Restored(f, parent, loaded, strip), check)
    ensures LoadFunction(DumpFunction(f, parent, strip) + rest, loaded, check)
      == Ok(Restored(f, parent, loaded, strip), rest)
    decreases f, 1
  {
    hide LoadHead, LoadTail, DumpHead, DumpDebug, LoadInt, DumpInt;
    var s := SourceOf(f, parent, loaded, strip);
    var b3 := DumpDebug(f, strip) + rest;
    var b2 := DumpProtos(f, 0, strip) + b3;
    var b1 := DumpInt(|f.p|) + b2;
    assert DumpFunction(f, parent, strip) + rest == DumpHead(f, parent, strip) + b1;
    HeadInverse(f, parent, loaded, strip, b1);
    IntInverse(|f.p|, b2);
    RestoredSize(f, 0, s, strip);
    ProtosInverse(f, 0, s, strip, check, b3);
    TailInverse(f, strip, rest);
  }

  lemma {:induction false} RestoredSize(f: Proto, i: nat, loaded: Option<Str>, strip: bool)
    requires i <= |f.p|
    ensures |RestoredProtos(f, i, loaded, strip)| == |f.p| - i
    ensures forall j :: 0 <= j < |f.p| - i ==>
      RestoredProtos(f, i, loaded, strip)[j] == Restored(f.p[i + j], f.source, loaded, strip)
    decreases |f.p| - i
  {
    if i < |f.p| { RestoredSize(f, i + 1, loaded, strip); }
  }

  lemma {:induction false} ProtosInverse(f: Proto, i: nat, loaded: Option<Str>, strip: bool, check: Proto -> bool,
      rest: Str)
    requires i <= |f.p| && (forall j :: 0 <= j < |f.p| ==> Fits(f.p[j]))
    requires forall j :: 0 <= j < |RestoredProtos(f, i, loaded, strip)| ==>
      Checked(RestoredProtos(f, i, loaded, strip)[j], check)
    ensures LoadProtos(DumpProtos(f, i, strip) + rest, |f.p| - i, loaded, check)
      == Ok(RestoredProtos(f, i, loaded, strip), rest)
    decreases f, 0, |f.p| - i
  {
    hide LoadFunction, DumpFunction, Restored, Checked, Fits;
    if i == |f.p| {
      assert DumpProtos(f, i, strip) + rest == rest;
    } else {
      var b := DumpProtos(f, i + 1, strip) + rest;
      var l := RestoredProtos(f, i, loaded, strip);
      assert DumpProtos(f, i, strip) + rest == DumpFunction(f.p[i], f.source, strip) + b;
      assert l[0] == Restored(f.p[i], f.source, loaded, strip) && l[1..] == RestoredProtos(f, i + 1, loaded, strip);
      FunctionInverse(f.p[i], f.source, loaded, strip, check, b);
      forall j | 0 <= j < |l[1..]| ensures Checked(l[1..][j], check) { assert l[1..][j] == l[j + 1]; }
      ProtosInverse(f, i + 1, loaded, strip, check, rest);
    }
  }

  /** luaU_undump after luaU_dump. */
  lemma ChunkInverse(f: Proto, strip: bool, check: Proto -> bool)
    requires Fits(f) && Checked(Restored(f, None, Some(UNNAMED), strip), check)
    ensures LoadChunk(DumpChunk(f, strip), check) == Ok(Restored(f, None, Some(UNNAMED), strip), [])
  {
    hide LoadFunction, DumpFunction, Restored, Fits;
    var b := DumpFunction(f, None, strip);
    assert b + [] == b;
    BlockInverse(HEADER, b);
    FunctionInverse(f, None, Some(UNNAMED), strip, check, []);
  }

  /** Every function has a source. */
  predicate Sourced(f: Proto) { f.source.Some? && forall i :: 0 <= i < |f.p| ==> Sourced(f.p[i]) }

  /** Without `strip`, a function comes back the same if and only if every function in it has a
      source. */
  lemma {:induction false} SameIfSourced(f: Proto, parent: Option<Str>, loaded: Option<Str>)
    requires loaded.Some? && (parent.Some? ==> loaded == parent)
    ensures Restored(f, parent, loaded, false) == f <==> Sourced(f)
    decreases f
  {
    var s := SourceOf(f, parent, loaded, false);
    RestoredSize(f, 0, s, false);
    var g := Restored(f, parent, loaded, false);
    if f.source.Some? {
      assert s == f.source;
      forall i | 0 <= i < |f.p| ensures g.p[i] == f.p[i] <==> Sourced(f.p[i]) { SameIfSourced(f.p[i], f.source, s); }
      if Sourced(f) {
        assert g.p == f.p;
      } else {
        var i :| 0 <= i < |f.p| && !Sourced(f.p[i]);
        assert g.p[i] != f.p[i];
      }
    }
  }

  /** With `strip`, what is left has no name and no debug information, at any depth, and is the same
      otherwise. */
  predicate StrippedFrom(g: Proto, f: Proto)
  {
    && g == f.(source := Some(UNNAMED), p := g.p, lineinfo := [], locvars := [], upvalues := [])
    && |g.p| == |f.p| && forall i :: 0 <= i < |f.p| ==> StrippedFrom(g.p[i], f.p[i])
  }

  lemma {:induction false} StripsAll(f: Proto, parent: Option<Str>)
    ensures StrippedFrom(Restored(f, parent, Some(UNNAMED), true), f)
    decreases f
  {
    var g := Restored(f, parent, Some(UNNAMED), true);
    RestoredSize(f, 0, Some(UNNAMED), true);
    forall i | 0 <= i < |f.p| ensures StrippedFrom(g.p[i], f.p[i]) { StripsAll(f.p[i], f.source); }
  }

  /** The two main cases, for chunks. */
  lemma RoundTrip(f: Proto, check: Proto -> bool)
    requires Fits(f) && Sourced(f) && Checked(f, check)
    ensures LoadChunk(DumpChunk(f, false), check) == Ok(f, [])
  {
    SameIfSourced(f, None, Some(UNNAMED));
    ChunkInverse(f, false, check);
  }
}

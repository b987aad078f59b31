/** Dumping through a writer that may fail (ldump.c), and the whole way from a function to the
    function that is loaded. */
module DumpWriter {
  import opened Base
  import opened Dump
  import opened DumpRoundTrip
  import opened DumpStream

  /** `x` was written, or as much of it as the writer took before it failed; nothing is written after
      a failure. */
  ghost predicate Wrote(out: Str, status: int, out': Str, status': int, x: Str)
  {
    && (status' == 0 ==> status == 0 && out' == out + x) && (status != 0 ==> out' == out && status' == status)
    && out <= out' && out' <= out + x
  }

  lemma WroteBoth(out: Str, status: int, out1: Str, status1: int, out2: Str, status2: int, x: Str, y: Str)
    requires Wrote(out, status, out1, status1, x) && Wrote(out1, status1, out2, status2, y)
    ensures Wrote(out, status, out2, status2, x + y)
  {
    assert out + (x + y) == out + x + y;
    if status1 != 0 {
      assert out2 == out1 <= out + x <= out + (x + y);
    }
  }

  lemma WroteNothing(out: Str, status: int)
    ensures Wrote(out, status, out, status, [])
  {
    assert out + [] == out;
  }

  /** DumpState. The writer is modelled by what it took, and by how many blocks it is going to take
      before it fails. */
  class DumpState {
    var out: Str
    var left: nat
    var status: int
    const strip: bool

    constructor (left: nat, strip: bool)
      ensures out == [] && status == 0 && this.left == left && this.strip == strip
    {
      out, this.left, status, this.strip := [], left, 0, strip;
    }

    method Block(b: Str)
      modifies this
      ensures Wrote(old(out), old(status), out, status, b)
    {
      if status == 0 {
        if left == 0 {
          status := 1;
        } else {
          out, left := out + b, left - 1;
        }
      }
    }

    method Text(s: Option<Str>)
      modifies this
      ensures Wrote(old(out), old(status), out, status, DumpString(s))
    {
      hide Wrote, Bytes;
      match s
      case None => Block(Bytes(0, 8));
      case Some(t) =>
        Block(Bytes((|t| + 1) % TWO64, 8));
        ghost var o, st := out, status;
        Block(t + [0]);
        WroteBoth(old(out), old(status), o, st, out, status, Bytes((|t| + 1) % TWO64, 8), t + [0]);
        assert Bytes((|t| + 1) % TWO64, 8) + (t + [0]) == DumpString(s);
    }

    method Constant(c: Const)
      modifies this
      ensures Wrote(old(out), old(status), out, status, DumpConst(c))
    {
      hide Wrote, DumpString;
      var t := match c
        case KNil => LUA_TNIL
        case KBool(_) => LUA_TBOOLEAN
        case KNum(_) => LUA_TNUMBER
        case KStr(_) => LUA_TSTRING;
      Block([t]);
      ghost var o, st := out, status;
      ghost var x: Str := [];
      match c {
        case KNil => WroteNothing(out, status);
        case KBool(b) =>
          Block([if b then 1 else 0]);
          x := [if b then 1 else 0];
        case KNum(bits) =>
          Block(bits);
          x := bits;
        case KStr(s) =>
          Text(s);
          x := DumpString(s);
      }
      WroteBoth(old(out), old(status), o, st, out, status, [t], x);
      assert [t] + x == DumpConst(c);
    }

    /** The constants: a loop over the elements. */
    method Constants(k: seq<Const>)
      modifies this
      ensures Wrote(old(out), old(status), out, status, DumpVector(k, DumpConst))
    {
      hide Wrote, DumpAll, DumpInt, DumpConst;
      Block(DumpInt(|k|));
      ghost var o, st := out, status;
      WroteNothing(o, st);
      assert DumpAll(k[..0], DumpConst) == [] by { AllNone(DumpConst); }
      for i := 0 to |k|
        invariant Wrote(o, st, out, status, DumpAll(k[..i], DumpConst))
      {
        ghost var o1, st1 := out, status;
        Constant(k[i]);
        WroteBoth(o, st, o1, st1, out, status, DumpAll(k[..i], DumpConst), DumpConst(k[i]));
        AllNext(k, i, DumpConst);
      }
      assert k[..|k|] == k;
      WroteBoth(old(out), old(status), o, st, out, status, DumpInt(|k|), DumpAll(k, DumpConst));
    }

    method Variables(l: seq<LocVar>)
      modifies this
      ensures Wrote(old(out), old(status), out, status, DumpVector(l, DumpLocVar))
    {
      hide Wrote, DumpAll, DumpInt, DumpLocVar;
      Block(DumpInt(|l|));
      ghost var o, st := out, status;
      WroteNothing(o, st);
      assert DumpAll(l[..0], DumpLocVar) == [] by { AllNone(DumpLocVar); }
      for i := 0 to |l|
        invariant Wrote(o, st, out, status, DumpAll(l[..i], DumpLocVar))
      {
        ghost var o1, st1 := out, status;
        Variable(l[i]);
        WroteBoth(o, st, o1, st1, out, status, DumpAll(l[..i], DumpLocVar), DumpLocVar(l[i]));
        AllNext(l, i, DumpLocVar);
      }
      assert l[..|l|] == l;
      WroteBoth(old(out), old(status), o, st, out, status, DumpInt(|l|), DumpAll(l, DumpLocVar));
    }

    method Variable(v: LocVar)
      modifies this
      ensures Wrote(old(out), old(status), out, status, DumpLocVar(v))
    {
      hide Wrote, DumpString, DumpInt;
      Text(v.varname);
      ghost var o1, st1 := out, status;
      Block(DumpInt(v.startpc));
      WroteBoth(old(out), old(status), o1, st1, out, status, DumpString(v.varname), DumpInt(v.startpc));
      ghost var o2, st2 := out, status;
      Block(DumpInt(v.endpc));
      WroteBoth(old(out), old(status), o2, st2, out, status, DumpString(v.varname) + DumpInt(v.startpc),
        DumpInt(v.endpc));
    }

    method Names(l: seq<Option<Str>>)
      modifies this
      ensures Wrote(old(out), old(status), out, status, DumpVector(l, DumpString))
    {
      hide Wrote, DumpAll, DumpInt, DumpString;
      Block(DumpInt(|l|));
      ghost var o, st := out, status;
      WroteNothing(o, st);
      assert DumpAll(l[..0], DumpString) == [] by { AllNone(DumpString); }
      for i := 0 to |l|
        invariant Wrote(o, st, out, status, DumpAll(l[..i], DumpString))
      {
        ghost var o1, st1 := out, status;
        Text(l[i]);
        WroteBoth(o, st, o1, st1, out, status, DumpAll(l[..i], DumpString), DumpString(l[i]));
        AllNext(l, i, DumpString);
      }
      assert l[..|l|] == l;
      WroteBoth(old(out), old(status), o, st, out, status, DumpInt(|l|), DumpAll(l, DumpString));
    }

    /** DumpVector, for the elements that are written as one block. */
    method Words(l: seq<int>, dump: int -> Str)
      modifies this
      ensures Wrote(old(out), old(status), out, status, DumpVector(l, dump))
    {
      hide Wrote, DumpAll, DumpInt;
      Block(DumpInt(|l|));
      ghost var o, st := out, status;
      Block(DumpAll(l, dump));
      WroteBoth(old(out), old(status), o, st, out, status, DumpInt(|l|), DumpAll(l, dump));
    }

    method Debug(f: Proto)
      modifies this
      ensures Wrote(old(out), old(status), out, status, DumpDebug(f, strip))
    {
      hide Wrote, DumpVector;
      Words(if strip then [] else f.lineinfo, DumpInt);
      ghost var o1, st1 := out, status;
      Variables(if strip then [] else f.locvars);
      ghost var x := DumpVector(if strip then [] else f.lineinfo, DumpInt);
      ghost var y := DumpVector(if strip then [] else f.locvars, DumpLocVar);
      WroteBoth(old(out), old(status), o1, st1, out, status, x, y);
      ghost var o2, st2 := out, status;
      Names(if strip then [] else f.upvalues);
      WroteBoth(old(out), old(status), o2, st2, out, status, x + y,
        DumpVector(if strip then [] else f.upvalues, DumpString));
    }

    method Fields(f: Proto, parent: Option<Str>)
      modifies this
      ensures Wrote(old(out), old(status), out, status, DumpHead(f, parent, strip))
    {
      hide Wrote, DumpVector, DumpString, DumpInt;
      ghost var source := if f.source == parent || strip then None else f.source;
      Text(if f.source == parent || strip then None else f.source);
      ghost var o, st, x := out, status, DumpString(source);
      Block(DumpInt(f.linedefined));
      WroteBoth(old(out), old(status), o, st, out, status, x, DumpInt(f.linedefined));
      o, st, x := out, status, x + DumpInt(f.linedefined);
      Block(DumpInt(f.lastlinedefined));
      WroteBoth(old(out), old(status), o, st, out, status, x, DumpInt(f.lastlinedefined));
      o, st, x := out, status, x + DumpInt(f.lastlinedefined);
      Block([f.nups, f.numparams, f.isVararg, f.maxstacksize]);
      WroteBoth(old(out), old(status), o, st, out, status, x, [f.nups, f.numparams, f.isVararg, f.maxstacksize]);
      o, st, x := out, status, x + [f.nups, f.numparams, f.isVararg, f.maxstacksize];
      Words(f.code, DumpInstr);
      WroteBoth(old(out), old(status), o, st, out, status, x, DumpVector(f.code, DumpInstr));
      o, st, x := out, status, x + DumpVector(f.code, DumpInstr);
      Constants(f.k);
      WroteBoth(old(out), old(status), o, st, out, status, x, DumpVector(f.k, DumpConst));
    }

    /** DumpFunction. */
    method Function(f: Proto, parent: Option<Str>)
      modifies this
      ensures Wrote(old(out), old(status), out, status, DumpFunction(f, parent, strip))
      decreases f
    {
      hide Wrote, DumpHead, DumpInt, DumpDebug, DumpProtos;
      Fields(f, parent);
      ghost var o, st, x := out, status, DumpHead(f, parent, strip);
      Block(DumpInt(|f.p|));
      WroteBoth(old(out), old(status), o, st, out, status, x, DumpInt(|f.p|));
      o, st, x := out, status, x + DumpInt(|f.p|);
      WroteNothing(o, st);
      ghost var done: Str := [];
      assert done + DumpProtos(f, 0, strip) == DumpProtos(f, 0, strip);
      for i := 0 to |f.p|
        invariant Wrote(o, st, out, status, done) && done + DumpProtos(f, i, strip) == DumpProtos(f, 0, strip)
      {
        ghost var o1, st1 := out, status;
        Function(f.p[i], f.source);
        ghost var y := DumpFunction(f.p[i], f.source, strip);
        WroteBoth(o, st, o1, st1, out, status, done, y);
        ProtosNext(f, i, strip);
        assert done + (y + DumpProtos(f, i + 1, strip)) == done + y + DumpProtos(f, i + 1, strip);
        done := done + y;
      }
      assert DumpProtos(f, |f.p|, strip) == [] by { NoProtos(f, strip); }
      assert done == DumpProtos(f, 0, strip);
      WroteBoth(old(out), old(status), o, st, out, status, x, done);
      o, st, x := out, status, x + done;
      Debug(f);
      WroteBoth(old(out), old(status), o, st, out, status, x, DumpDebug(f, strip));
    }

    /** luaU_dump: if it reports no failure, the writer has the whole chunk. */
    method Chunk(f: Proto)
      requires out == [] && status == 0
      modifies this
      ensures (status == 0 ==> out == DumpChunk(f, strip)) && out <= DumpChunk(f, strip)
    {
      hide DumpFunction;
      Block(HEADER);
      ghost var o, st := out, status;
      Function(f, None);
      WroteBoth([], 0, o, st, out, status, HEADER, DumpFunction(f, None, strip));
    }
  }

  lemma AllNone<T>(dump: T -> Str)
    ensures DumpAll([], dump) == []
  {
  }

  lemma {:induction false} AllNext<T>(l: seq<T>, i: nat, dump: T -> Str)
    requires i < |l|
    ensures DumpAll(l[..i + 1], dump) == DumpAll(l[..i], dump) + dump(l[i])
    decreases i
  {
    assert l[..i + 1][0] == l[0];
    if i == 0 {
      assert l[..1][1..] == [] && l[..0] == [];
      assert DumpAll(l[..1], dump) == dump(l[0]) + DumpAll([], dump);
    } else {
      assert l[..i + 1][1..] == l[1..][..i] && l[..i][1..] == l[1..][..i - 1] && l[..i][0] == l[0];
      AllNext(l[1..], i - 1, dump);
      assert dump(l[0]) + (DumpAll(l[1..][..i - 1], dump) + dump(l[i])) == dump(l[0]) + DumpAll(l[1..][..i - 1], dump)
        + dump(l[i]);
    }
  }

  lemma ProtosNext(f: Proto, i: nat, strip: bool)
    requires i < |f.p|
    ensures DumpProtos(f, i, strip) == DumpFunction(f.p[i], f.source, strip) + DumpProtos(f, i + 1, strip)
  {
    hide DumpFunction;
  }

  lemma NoProtos(f: Proto, strip: bool)
    ensures DumpProtos(f, |f.p|, strip) == []
  {
  }

  /** However the bytes of a dumped chunk are cut into pieces, the loader gives the function back: with
      the debug information gone if it was stripped, and with the missing sources filled in. */
  method ReadBack(f: Proto, strip: bool, check: Proto -> bool, chunks: seq<Str>) returns (r: Loaded<Proto>)
    requires Fits(f) && Checked(Restored(f, None, Some(UNNAMED), strip), check)
    requires Flatten(chunks) == DumpChunk(f, strip) && forall i :: 0 <= i < |chunks| ==> chunks[i] != []
    ensures r == Good(Restored(f, None, Some(UNNAMED), strip))
    ensures !strip && Sourced(f) ==> r == Good(f)
  {
    hide LoadChunk, DumpChunk, Fits, Sourced, Checked, Restored;
    ChunkInverse(f, strip, check);
    if !strip { SameIfSourced(f, None, Some(UNNAMED)); }
    var z := new Zio(chunks);
    var s := new LoadState(z, check);
    r := s.Undump();
  }
}

/** Precompiled chunks: what ldump.c writes and lundump.c reads, byte by byte. */
module Dump {
  import opened Base

  type Byte = x: int | 0 <= x < 256

  type Str = seq<Byte>

  const TWO31 := 0x8000_0000

  /** A constant. A number is the eight bytes of its representation. */
  datatype Const = KNil | KBool(b: bool) | KNum(bits: Str) | KStr(s: Option<Str>)

  datatype LocVar = LocVar(varname: Option<Str>, startpc: int, endpc: int)

  /** A function prototype. */
  datatype Proto = Proto(source: Option<Str>, linedefined: int, lastlinedefined: int,
                         nups: Byte, numparams: Byte, isVararg: Byte, maxstacksize: Byte,
                         code: seq<int>, k: seq<Const>, p: seq<Proto>,
                         lineinfo: seq<int>, locvars: seq<LocVar>, upvalues: seq<Option<Str>>)

  /** The header of chunks on a little-endian machine with 64-bit sizes: "\033Lua", the version, the
      format, the byte order and the sizes of int, size_t, Instruction and lua_Number. */
  const HEADER: Str := [27, 76, 117, 97, 0x51, 0, 1, 4, 8, 4, 8, 0]

  const LUA_TNIL := 0

  const LUA_TBOOLEAN := 1

  const LUA_TNUMBER := 3

  const LUA_TSTRING := 4

  /** A number as `k` bytes, as they lie in memory. */
  function Bytes(n: nat, k: nat): (b: Str)
    ensures |b| == k
  {
    if k == 0 then [] else [n % 256] + Bytes(n / 256, k - 1)
  }

  function Value(b: Str): nat { if b == [] then 0 else b[0] + 256 * Value(b[1..]) }

  lemma {:induction false} ValueOfBytes(n: nat, k: nat)
    requires n < Pow256(k)
    ensures Value(Bytes(n, k)) == n
  {
    if k > 0 { ValueOfBytes(n / 256, k - 1); }
  }

  /** DumpInt, with negative numbers in two's complement. */
  function DumpInt(x: int): Str { Bytes(x % TWO32, 4) }

  function IntOf(b: Str): int { var v := Value(b); if v < TWO31 then v else v - TWO32 }

  lemma IntOfDump(x: int)
    requires -TWO31 <= x < TWO31
    ensures IntOf(DumpInt(x)) == x
  {
    assert Pow256(4) == TWO32 by { assert Pow256(1) == 256 && Pow256(2) == 65536 && Pow256(3) == 16777216; }
    ValueOfBytes(x % TWO32, 4);
    assert x % TWO32 == if x >= 0 then x else x + TWO32;
  }

  /** DumpString: the size counts a final zero; no string at all has size zero. */
  function DumpString(s: Option<Str>): Str
  {
    match s
    case None => Bytes(0, 8)
    case Some(s) => Bytes((|s| + 1) % TWO64, 8) + s + [0]
  }

  function DumpConst(c: Const): Str
  {
    match c
    case KNil => [LUA_TNIL]
    case KBool(b) => [LUA_TBOOLEAN, if b then 1 else 0]
    case KNum(bits) => [LUA_TNUMBER] + bits
    case KStr(s) => [LUA_TSTRING] + DumpString(s)
  }

  function DumpLocVar(v: LocVar): Str { DumpString(v.varname) + DumpInt(v.startpc) + DumpInt(v.endpc) }

  /** The elements of a vector, one after the other. */
  function DumpAll<T>(l: seq<T>, dump: T -> Str): Str { if l == [] then [] else dump(l[0]) + DumpAll(l[1..], dump) }

  function DumpVector<T>(l: seq<T>, dump: T -> Str): Str { DumpInt(|l|) + DumpAll(l, dump) }

  function DumpInstr(i: int): Str { Bytes(i % TWO32, 4) }

  function DumpDebug(f: Proto, strip: bool): Str
  {
    DumpVector(if strip then [] else f.lineinfo, DumpInt) + DumpVector(if strip then [] else f.locvars, DumpLocVar)
    + DumpVector(if strip then [] else f.upvalues, DumpString)
  }

  /** The part of a function before the functions in it. */
  function DumpHead(f: Proto, parent: Option<Str>, strip: bool): Str
  {
    DumpString(if f.source == parent || strip then None else f.source) + DumpInt(f.linedefined)
      + DumpInt(f.lastlinedefined)
    + [f.nups, f.numparams, f.isVararg, f.maxstacksize] + DumpVector(f.code, DumpInstr) + DumpVector(f.k, DumpConst)
  }

  /** DumpFunction; `parent` is the source of the enclosing function. */
  function DumpFunction(f: Proto, parent: Option<Str>, strip: bool): Str
    decreases f, 1
  {
    DumpHead(f, parent, strip) + DumpInt(|f.p|) + DumpProtos(f, 0, strip) + DumpDebug(f, strip)
  }

  /** The functions in `f`, from number `i` on. */
  function DumpProtos(f: Proto, i: nat, strip: bool): Str
    decreases f, 0, |f.p| - i
  {
    if i >= |f.p| then [] else DumpFunction(f.p[i], f.source, strip) + DumpProtos(f, i + 1, strip)
  }

  /** luaU_dump. */
  function DumpChunk(f: Proto, strip: bool): Str { HEADER + DumpFunction(f, None, strip) }

  datatype Error = UnexpectedEnd | BadInteger | BadConstant | BadCode | BadHeader

  /** A value read from the bytes, and the bytes after it. */
  datatype Parsed<T> = Ok(v: T, rest: Str) | Err(e: Error) {
    predicate IsFailure() { Err? }

    function PropagateFailure<U>(): Parsed<U>
      requires IsFailure()
    {
      Err(e)
    }

    function Extract(): (T, Str)
      requires !IsFailure()
    {
      (v, rest)
    }
  }

  function LoadBlock(b: Str, n: nat): (r: Parsed<Str>)
    ensures r.Ok? ==> |r.v| == n && b == r.v + r.rest
  {
    if n <= |b| then Ok(b[..n], b[n..]) else Err(UnexpectedEnd)
  }

  /** LoadInt, which refuses negative numbers. */
  function LoadInt(b: Str): (r: Parsed<nat>)
    ensures r.Ok? ==> |r.rest| + 4 == |b|
  {
    var (v, rest) :- LoadBlock(b, 4);
    if IntOf(v) < 0 then Err(BadInteger) else Ok(IntOf(v), rest)
  }

  function LoadByte(b: Str): (r: Parsed<Byte>)
    ensures r.Ok? ==> |r.rest| + 1 == |b|
  {
    var (v, rest) :- LoadBlock(b, 1);
    Ok(v[0], rest)
  }

  function LoadString(b: Str): (r: Parsed<Option<Str>>)
    ensures r.Ok? ==> |r.rest| + 8 <= |b|
  {
    var (v, rest) :- LoadBlock(b, 8);
    var size := Value(v);
    if size == 0 then Ok(None, rest)
    else
      var (s, rest') :- LoadBlock(rest, size);
      Ok(Some(s[..size - 1]), rest')
  }

  function LoadConst(b: Str): (r: Parsed<Const>)
    ensures r.Ok? ==> |r.rest| < |b|
  {
    var (t, rest) :- LoadByte(b);
    if t == LUA_TNIL then Ok(KNil, rest)
    else if t == LUA_TBOOLEAN then
      var (v, rest') :- LoadByte(rest);
      Ok(KBool(v != 0), rest')
    else if t == LUA_TNUMBER then
      var (v, rest') :- LoadBlock(rest, 8);
      Ok(KNum(v), rest')
    else if t == LUA_TSTRING then
      var (s, rest') :- LoadString(rest);
      Ok(KStr(s), rest')
    else Err(BadConstant)
  }

  function LoadLocVar(b: Str): (r: Parsed<LocVar>)
    ensures r.Ok? ==> |r.rest| <= |b|
  {
    var (name, b1) :- LoadString(b);
    var (startpc, b2) :- LoadInt(b1);
    var (endpc, b3) :- LoadInt(b2);
    Ok(LocVar(name, startpc, endpc), b3)
  }

  /** A machine word of a vector that is copied as it is. */
  function LoadRaw(b: Str): (r: Parsed<int>)
    ensures r.Ok? ==> |r.rest| <= |b|
  {
    var (v, rest) :- LoadBlock(b, 4);
    Ok(IntOf(v), rest)
  }

  function WordOf(b: Str): int { Value(b) }

  function LoadInstr(b: Str): (r: Parsed<int>)
    ensures r.Ok? ==> |r.rest| <= |b|
  {
    var (v, rest) :- LoadBlock(b, 4);
    Ok(WordOf(v), rest)
  }

  /** Reading takes nothing back. */
  ghost predicate Shrinks<T(!new)>(load: Str -> Parsed<T>) { forall b :: load(b).Ok? ==> |load(b).rest| <= |b| }

  function LoadAll<T(!new)>(b: Str, n: nat, load: Str -> Parsed<T>): (r: Parsed<seq<T>>)
    requires Shrinks(load)
    ensures r.Ok? ==> |r.rest| <= |b| && |r.v| == n
    decreases n
  {
    if n == 0 then Ok([], b)
    else
      var (x, b1) :- load(b);
      var (l, b2) :- LoadAll(b1, n - 1, load);
      Ok([x] + l, b2)
  }

  function LoadVector<T(!new)>(b: Str, load: Str -> Parsed<T>): (r: Parsed<seq<T>>)
    requires Shrinks(load)
    ensures r.Ok? ==> |r.rest| <= |b|
  {
    var (n, b1) :- LoadInt(b);
    LoadAll(b1, n, load)
  }

  /** Loading gives back what was dumped. */
  ghost predicate Inverse<T(!new)>(dump: T -> Str, load: Str -> Parsed<T>, x: T)
  {
    forall rest :: load(dump(x) + rest) == Ok(x, rest)
  }

  lemma {:induction false} AllInverse<T(!new)>(l: seq<T>, dump: T -> Str, load: Str -> Parsed<T>, rest: Str)
    requires Shrinks(load) && forall i :: 0 <= i < |l| ==> Inverse(dump, load, l[i])
    ensures LoadAll(DumpAll(l, dump) + rest, |l|, load) == Ok(l, rest)
    decreases |l|
  {
    if l == [] {
      assert [] + rest == rest;
    } else {
      var tail := DumpAll(l[1..], dump) + rest;
      assert DumpAll(l, dump) + rest == dump(l[0]) + tail;
      AllInverse(l[1..], dump, load, rest);
      assert [l[0]] + l[1..] == l;
    }
  }

  lemma VectorInverse<T(!new)>(l: seq<T>, dump: T -> Str, load: Str -> Parsed<T>, rest: Str)
    requires Shrinks(load) && |l| < TWO31 && forall i :: 0 <= i < |l| ==> Inverse(dump, load, l[i])
    ensures LoadVector(DumpVector(l, dump) + rest, load) == Ok(l, rest)
  {
    assert DumpVector(l, dump) + rest == DumpInt(|l|) + (DumpAll(l, dump) + rest);
    IntInverse(|l|, DumpAll(l, dump) + rest);
    AllInverse(l, dump, load, rest);
  }

  lemma BlockInverse(s: Str, rest: Str)
    ensures LoadBlock(s + rest, |s|) == Ok(s, rest)
  {
    assert (s + rest)[..|s|] == s && (s + rest)[|s|..] == rest;
  }

  lemma IntInverse(x: int, rest: Str)
    requires 0 <= x < TWO31
    ensures LoadInt(DumpInt(x) + rest) == Ok(x, rest)
  {
    BlockInverse(DumpInt(x), rest);
    IntOfDump(x);
  }

  lemma StringInverse(s: Option<Str>, rest: Str)
    requires s.Some? ==> |s.value| + 1 < TWO64
    ensures LoadString(DumpString(s) + rest) == Ok(s, rest)
  {
    hide Bytes, Value;
    assert Pow256(8) == TWO64 by { Pow256Eight(); }
    match s
    case None =>
      BlockInverse(Bytes(0, 8), rest);
      ValueOfBytes(0, 8);
    case Some(t) =>
      var size := Bytes(|t| + 1, 8);
      assert DumpString(s) + rest == size + (t + [0] + rest);
      BlockInverse(size, t + [0] + rest);
      ValueOfBytes(|t| + 1, 8);
      BlockInverse(t + [0], rest);
      assert (t + [0])[..|t|] == t;
  }

  lemma Pow256Eight()
    ensures Pow256(8) == TWO64
  {
    assert Pow256(1) == 256 && Pow256(2) == 65536 && Pow256(3) == 16777216 && Pow256(4) == TWO32;
    assert Pow256(5) == 256 * TWO32 && Pow256(6) == 65536 * TWO32 && Pow256(7) == 16777216 * TWO32;
  }

  predicate ConstOk(c: Const)
  {
    match c
    case KNum(bits) => |bits| == 8
    case KStr(s) => s.Some? ==> |s.value| + 1 < TWO64
    case _ => true
  }

  lemma ConstInverse(c: Const, rest: Str)
    requires ConstOk(c)
    ensures LoadConst(DumpConst(c) + rest) == Ok(c, rest)
  {
    var t := DumpConst(c)[0];
    var tail := DumpConst(c)[1..] + rest;
    assert DumpConst(c) + rest == [t] + tail;
    BlockInverse([t], tail);
    match c
    case KNil => assert tail == rest;
    case KBool(b) =>
      assert tail == [if b then 1 else 0] + rest;
      BlockInverse([if b then 1 else 0], rest);
    case KNum(bits) =>
      assert tail == bits + rest;
      BlockInverse(bits, rest);
    case KStr(s) =>
      assert tail == DumpString(s) + rest;
      StringInverse(s, rest);
  }

  predicate LocVarOk(v: LocVar)
  {
    (v.varname.Some? ==> |v.varname.value| + 1 < TWO64) && 0 <= v.startpc < TWO31 && 0 <= v.endpc < TWO31
  }

  lemma LocVarInverse(v: LocVar, rest: Str)
    requires LocVarOk(v)
    ensures LoadLocVar(DumpLocVar(v) + rest) == Ok(v, rest)
  {
    var b2 := DumpInt(v.endpc) + rest;
    var b1 := DumpInt(v.startpc) + b2;
    assert DumpLocVar(v) + rest == DumpString(v.varname) + b1;
    StringInverse(v.varname, b1);
    IntInverse(v.startpc, b2);
    IntInverse(v.endpc, rest);
  }

  lemma RawInverse(x: int, rest: Str)
    requires -TWO31 <= x < TWO31
    ensures LoadRaw(DumpInt(x) + rest) == Ok(x, rest)
  {
    BlockInverse(DumpInt(x), rest);
    IntOfDump(x);
  }

  lemma InstrInverse(x: int, rest: Str)
    requires 0 <= x < TWO32
    ensures LoadInstr(DumpInstr(x) + rest) == Ok(x, rest)
  {
    BlockInverse(DumpInstr(x), rest);
    assert Pow256(4) == TWO32 by { assert Pow256(1) == 256 && Pow256(2) == 65536 && Pow256(3) == 16777216; }
    ValueOfBytes(x, 4);
  }

  datatype Head = Head(source: Option<Str>, linedefined: int, lastlinedefined: int, bytes: Str, code: seq<int>,
    k: seq<Const>)

  datatype Tail = Tail(lineinfo: seq<int>, locvars: seq<LocVar>, upvalues: seq<Option<Str>>)

  /** LoadFunction up to the functions in it. */
  function LoadHead(b: Str, parent: Option<Str>): (r: Parsed<Head>)
    ensures r.Ok? ==> |r.rest| < |b| && |r.v.bytes| == 4
  {
    var (source, b1) :- LoadString(b);
    var (linedefined, b2) :- LoadInt(b1);
    var (lastlinedefined, b3) :- LoadInt(b2);
    var (bytes, b4) :- LoadBlock(b3, 4);
    var (code, b5) :- LoadVector(b4, LoadInstr);
    var (k, b6) :- LoadVector(b5, LoadConst);
    Ok(Head(if source.None? then parent else source, linedefined, lastlinedefined, bytes, code, k), b6)
  }

  /** LoadDebug. */
  function LoadTail(b: Str): (r: Parsed<Tail>)
    ensures r.Ok? ==> |r.rest| <= |b|
  {
    var (lineinfo, b1) :- LoadVector(b, LoadRaw);
    var (locvars, b2) :- LoadVector(b1, LoadLocVar);
    var (upvalues, b3) :- LoadVector(b2, LoadString);
    Ok(Tail(lineinfo, locvars, upvalues), b3)
  }

  function Assemble(h: Head, p: seq<Proto>, t: Tail): Proto
    requires |h.bytes| == 4
  {
    Proto(h.source, h.linedefined, h.lastlinedefined, h.bytes[0], h.bytes[1], h.bytes[2], h.bytes[3], h.code, h.k, p,
      t.lineinfo, t.locvars, t.upvalues)
  }

  /** LoadFunction; `check` is luaG_checkcode. */
  function LoadFunction(b: Str, parent: Option<Str>, check: Proto -> bool): (r: Parsed<Proto>)
    ensures r.Ok? ==> |r.rest| < |b|
    decreases |b|, 0, 0
  {
    var (h, b1) :- LoadHead(b, parent);
    var (n, b2) :- LoadInt(b1);
    var (p, b3) :- LoadProtos(b2, n, h.source, check);
    var (t, b4) :- LoadTail(b3);
    var f := Assemble(h, p, t);
    if check(f) then Ok(f, b4) else Err(BadCode)
  }

  function LoadProtos(b: Str, n: nat, parent: Option<Str>, check: Proto -> bool): (r: Parsed<seq<Proto>>)
    ensures r.Ok? ==> |r.rest| <= |b| && |r.v| == n
    decreases |b|, 1, n
  {
    if n == 0 then Ok([], b)
    else
      var (f, b1) :- LoadFunction(b, parent, check);
      var (l, b2) :- LoadProtos(b1, n - 1, parent, check);
      Ok([f] + l, b2)
  }

  /** The name of a chunk without one, "=?". */
  const UNNAMED: Str := [61, 63]

  /** luaU_undump. */
  function LoadChunk(b: Str, check: Proto -> bool): Parsed<Proto>
  {
    var (h, b1) :- LoadBlock(b, |HEADER|);
    if h != HEADER then Err(BadHeader) else LoadFunction(b1, Some(UNNAMED), check)
  }
}

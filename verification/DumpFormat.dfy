/** The format of precompiled chunks, by offsets: what the bytes of a function are, and that the loader accepts these
    bytes and no others. */
module DumpFormat {
  import opened Base
  import opened Dump
  import opened DumpRoundTrip

  /** Four bytes, the lowest first. */
  function Little(b0: int, b1: int, b2: int, b3: int): int { b0 + 0x100 * b1 + 0x1_0000 * b2 + 0x100_0000 * b3 }

  function Word4(b: Str, o: nat): int
    requires o + 4 <= |b|
  {
    Little(b[o], b[o + 1], b[o + 2], b[o + 3])
  }

  predicate IntAt(b: Str, o: nat, x: int) { o + 4 <= |b| && b[o + 3] < 128 && x == Word4(b, o) }

  /** An int of the line information, which may be negative. */
  predicate LineAt(b: Str, o: nat, x: int)
  {
    o + 4 <= |b| && x == if b[o + 3] < 128 then Word4(b, o) else Word4(b, o) - 0x1_0000_0000
  }

  predicate InstructionAt(b: Str, o: nat, x: int) { o + 4 <= |b| && x == Word4(b, o) }

  /** A string: its size in eight bytes, which counts a final byte; zero for no string. */
  predicate StringAt(b: Str, o: nat, s: Option<Str>)
  {
    && o + StringSize(s) <= |b|
    && var size := Word4(b, o) + 0x1_0000_0000 * Word4(b, o + 4);
      match s
      case None => size == 0
      case Some(t) => size == |t| + 1 && b[o + 8..o + 8 + |t|] == t
  }

  function StringSize(s: Option<Str>): nat { match s case None => 8 case Some(t) => 9 + |t| }

  /** A constant: a byte for its type, and its value. */
  predicate ConstAt(b: Str, o: nat, c: Const)
  {
    && o + ConstSize(c) <= |b|
    && match c
       case KNil => b[o] == 0
       case KBool(v) => b[o] == 1 && (v <==> b[o + 1] != 0)
       case KNum(bits) => b[o] == 3 && bits == b[o + 1..o + 9]
       case KStr(s) => b[o] == 4 && StringAt(b, o + 1, s)
  }

  function ConstSize(c: Const): nat
  {
    match c
    case KNil => 1
    case KBool(_) => 2
    case KNum(_) => 9
    case KStr(s) => 1 + StringSize(s)
  }

  predicate LocVarAt(b: Str, o: nat, v: LocVar)
  {
    && StringAt(b, o, v.varname) && IntAt(b, o + StringSize(v.varname), v.startpc)
    && IntAt(b, o + StringSize(v.varname) + 4, v.endpc)
  }

  function LocVarSize(v: LocVar): nat { StringSize(v.varname) + 8 }

  /** The size of the first `n` elements of a vector. */
  function Total<T>(l: seq<T>, size: T -> nat, n: nat): nat
    requires n <= |l|
  {
    if n == 0 then 0 else Total(l, size, n - 1) + size(l[n - 1])
  }

  /** A vector: the number of its elements, and the elements one after the other. */
  ghost predicate VectorAt<T(!new)>(b: Str, o: nat, l: seq<T>, size: T -> nat, at: (Str, nat, T) -> bool)
  {
    IntAt(b, o, |l|) && ElementsAt(b, o + 4, l, size, at)
  }

  ghost predicate ElementsAt<T(!new)>(b: Str, o: nat, l: seq<T>, size: T -> nat, at: (Str, nat, T) -> bool)
  {
    forall j :: 0 <= j < |l| ==> ElementAt(b, o, l, size, at, j)
  }

  predicate ElementAt<T(!new)>(b: Str, o: nat, l: seq<T>, size: T -> nat, at: (Str, nat, T) -> bool, j: nat)
    requires j < |l|
  {
    at(b, o + Total(l, size, j), l[j])
  }

  function VectorSize<T>(l: seq<T>, size: T -> nat): nat { 4 + Total(l, size, |l|) }

  /** What was read at `o` is what the format says is there. */
  ghost predicate Exact<T(!new)>(b: Str, o: nat, p: Parsed<T>, size: T -> nat, at: (Str, nat, T) -> bool)
  {
    && (p.Ok? ==> at(b, o, p.v) && Rest(b, o + size(p.v), p.rest))
    && forall x :: at(b, o, x) ==> p.Ok? && p.v == x
  }

  predicate Rest(b: Str, o: nat, r: Str) { o <= |b| && r == b[o..] }

  /** The loader accepts exactly what is in the format. */
  ghost predicate Format<T(!new)>(b: Str, load: Str -> Parsed<T>, size: T -> nat, at: (Str, nat, T) -> bool)
  {
    forall o: nat | o <= |b| :: Exact(b, o, load(b[o..]), size, at)
  }

  lemma Value4(v: Str)
    requires |v| == 4
    ensures Value(v) == Little(v[0], v[1], v[2], v[3])
  {
    var v1 := v[1..];
    var v2 := v1[1..];
    var v3 := v2[1..];
    assert Value(v3) == v[3] + 256 * Value([]);
    assert Value(v2) == v[2] + 256 * Value(v3);
    assert Value(v1) == v[1] + 256 * Value(v2);
  }

  lemma {:induction false} ValueSplit(v: Str, n: nat)
    requires n <= |v|
    ensures Value(v) == Value(v[..n]) + Pow256(n) * Value(v[n..])
  {
    if n == 0 {
      assert v[0..] == v;
    } else {
      ValueSplit(v[1..], n - 1);
      assert v[..n][1..] == v[1..][..n - 1] && v[1..][n - 1..] == v[n..];
      assert Value(v[..n]) == v[0] + 256 * Value(v[1..][..n - 1]);
      Times256(Pow256(n - 1), Value(v[n..]), Value(v[1..][..n - 1]));
    }
  }

  lemma Times256(p: nat, x: nat, y: nat)
    ensures 256 * (y + p * x) == 256 * y + 256 * p * x
  {
  }

  lemma Slice(b: Str, o: nat, n: nat)
    requires o <= |b|
    ensures LoadBlock(b[o..], n) == if o + n <= |b| then Ok(b[o..o + n], b[o + n..]) else Err(UnexpectedEnd)
  {
    if o + n <= |b| { assert b[o..][..n] == b[o..o + n] && b[o..][n..] == b[o + n..]; }
  }

  lemma WordRead(b: Str, o: nat)
    requires o + 4 <= |b|
    ensures Value(b[o..o + 4]) == Word4(b, o) < TWO32 && (Word4(b, o) < TWO31 <==> b[o + 3] < 128)
  {
    Value4(b[o..o + 4]);
  }

  function Four(x: int): nat { 4 }

  lemma IntRead(b: Str, o: nat)
    requires o <= |b|
    ensures var p := LoadInt(b[o..]);
      && (p.Ok? ==> IntAt(b, o, p.v) && Rest(b, o + 4, p.rest)) && forall x :: IntAt(b, o, x) ==> p.Ok? && p.v == x
  {
    hide Value, Word4;
    Slice(b, o, 4);
    if o + 4 <= |b| { WordRead(b, o); }
  }

  /** A negative int where the loader wants another is refused. */
  lemma IntRefused(b: Str, o: nat)
    requires o <= |b|
    ensures |b| < o + 4 ==> LoadInt(b[o..]) == Err(UnexpectedEnd)
    ensures |b| >= o + 4 && b[o + 3] >= 128 ==> LoadInt(b[o..]) == Err(BadInteger)
  {
    hide Value, Word4;
    Slice(b, o, 4);
    if o + 4 <= |b| { WordRead(b, o); }
  }

  lemma LineRead(b: Str, o: nat)
    requires o <= |b|
    ensures Exact(b, o, LoadRaw(b[o..]), Four, LineAt)
  {
    hide Value, Word4;
    Slice(b, o, 4);
    if o + 4 <= |b| { WordRead(b, o); }
  }

  lemma InstructionRead(b: Str, o: nat)
    requires o <= |b|
    ensures Exact(b, o, LoadInstr(b[o..]), Four, InstructionAt)
  {
    hide Value, Word4;
    Slice(b, o, 4);
    if o + 4 <= |b| { WordRead(b, o); }
  }

  lemma SizeRead(b: Str, o: nat)
    requires o + 8 <= |b|
    ensures Value(b[o..o + 8]) == Word4(b, o) + 0x1_0000_0000 * Word4(b, o + 4)
  {
    hide Value, Word4;
    var v := b[o..o + 8];
    ValueSplit(v, 4);
    assert v[..4] == b[o..o + 4] && v[4..] == b[o + 4..o + 8];
    WordRead(b, o);
    WordRead(b, o + 4);
    assert Pow256(4) == TWO32 by { assert Pow256(1) == 256 && Pow256(2) == 65536 && Pow256(3) == 16777216; }
  }

  lemma StringRead(b: Str, o: nat)
    requires o <= |b|
    ensures Exact(b, o, LoadString(b[o..]), StringSize, StringAt)
  {
    hide Value, Word4;
    Slice(b, o, 8);
    if o + 8 <= |b| {
      SizeRead(b, o);
      var size := Value(b[o..o + 8]);
      Slice(b, o + 8, size);
      if size > 0 && o + 8 + size <= |b| {
        assert b[o + 8..o + 8 + size][..size - 1] == b[o + 8..o + 8 + (size - 1)];
      }
    }
  }

  lemma ConstRead(b: Str, o: nat)
    requires o <= |b|
    ensures Exact(b, o, LoadConst(b[o..]), ConstSize, ConstAt)
  {
    hide LoadString, StringAt;
    Slice(b, o, 1);
    if o < |b| {
      Slice(b, o + 1, 1);
      Slice(b, o + 1, 8);
      StringRead(b, o + 1);
    }
  }

  /** A constant of any other type is refused. */
  lemma ConstRefused(b: Str)
    ensures LoadConst(b) == Err(BadConstant) <==> b != [] && b[0] != 0 && b[0] != 1 && b[0] != 3 && b[0] != 4
    ensures b == [] ==> LoadConst(b) == Err(UnexpectedEnd)
  {
  }

  lemma LocVarRead(b: Str, o: nat)
    requires o <= |b|
    ensures Exact(b, o, LoadLocVar(b[o..]), LocVarSize, LocVarAt)
  {
    hide LoadString, LoadInt, StringAt, IntAt;
    StringRead(b, o);
    var p := LoadString(b[o..]);
    if p.Ok? {
      var o1 := o + StringSize(p.v);
      IntRead(b, o1);
      if LoadInt(b[o1..]).Ok? { IntRead(b, o1 + 4); }
    }
  }

  lemma {:induction false} TotalFront<T>(l: seq<T>, size: T -> nat, n: nat)
    requires n < |l|
    ensures Total(l, size, n + 1) == size(l[0]) + Total(l[1..], size, n)
  {
    if n > 0 { TotalFront(l, size, n - 1); }
  }

  lemma ElementNext<T(!new)>(b: Str, o: nat, l: seq<T>, size: T -> nat, at: (Str, nat, T) -> bool, j: nat)
    requires j + 1 < |l|
    ensures ElementAt(b, o, l, size, at, j + 1) <==> ElementAt(b, o + size(l[0]), l[1..], size, at, j)
  {
    TotalFront(l, size, j);
  }

  lemma ElementsFront<T(!new)>(b: Str, o: nat, l: seq<T>, size: T -> nat, at: (Str, nat, T) -> bool)
    requires l != []
    ensures ElementsAt(b, o, l, size, at) <==> at(b, o, l[0]) && ElementsAt(b, o + size(l[0]), l[1..], size, at)
  {
    assert at(b, o, l[0]) <==> ElementAt(b, o, l, size, at, 0);
    hide ElementAt;
    var o1, l1 := o + size(l[0]), l[1..];
    if ElementsAt(b, o, l, size, at) {
      forall j | 0 <= j < |l1| ensures ElementAt(b, o1, l1, size, at, j) {
        ElementNext(b, o, l, size, at, j);
      }
    }
    if at(b, o, l[0]) && ElementsAt(b, o + size(l[0]), l[1..], size, at) {
      forall j | 0 <= j < |l| ensures ElementAt(b, o, l, size, at, j) {
        if j > 0 { ElementNext(b, o, l, size, at, j - 1); }
      }
    }
  }

  /** What was read is `n` elements of the format. */
  ghost predicate AllExact<T(!new)>(b: Str, o: nat, n: nat, p: Parsed<seq<T>>, size: T -> nat,
      at: (Str, nat, T) -> bool)
  {
    && (p.Ok? ==> |p.v| == n && ElementsAt(b, o, p.v, size, at) && Rest(b, o + Total(p.v, size, n), p.rest))
    && forall l :: |l| == n && ElementsAt(b, o, l, size, at) ==> p.Ok? && p.v == l
  }

  lemma OneMore<T(!new)>(b: Str, o: nat, n: nat, p: Parsed<T>, q: Parsed<seq<T>>, size: T -> nat,
      at: (Str, nat, T) -> bool)
    requires Exact(b, o, p, size, at) && p.Ok? && AllExact(b, o + size(p.v), n, q, size, at)
    ensures AllExact(b, o, n + 1, if q.Ok? then Ok([p.v] + q.v, q.rest) else q, size, at)
  {
    hide ElementsAt;
    forall l | |l| == n + 1 && ElementsAt(b, o, l, size, at) ensures q.Ok? && l == [p.v] + q.v {
      ElementsFront(b, o, l, size, at);
      assert l == [l[0]] + l[1..];
    }
    if q.Ok? {
      var l := [p.v] + q.v;
      assert l[1..] == q.v;
      ElementsFront(b, o, l, size, at);
      TotalFront(l, size, n);
    }
  }

  lemma NoMore<T(!new)>(b: Str, o: nat, n: nat, p: Parsed<T>, e: Error, size: T -> nat, at: (Str, nat, T) -> bool)
    requires Exact(b, o, p, size, at) && p.Err? && n > 0
    ensures AllExact(b, o, n, Err(e), size, at)
  {
    hide ElementsAt;
    forall l | |l| == n ensures !ElementsAt(b, o, l, size, at) { ElementsFront(b, o, l, size, at); }
  }

  /** The elements of a vector are read one after the other. */
  lemma {:induction false} ElementsRead<T(!new)>(b: Str, o: nat, n: nat, load: Str -> Parsed<T>, size: T -> nat,
      at: (Str, nat, T) -> bool)
    requires o <= |b| && Shrinks(load) && Format(b, load, size, at)
    ensures AllExact(b, o, n, LoadAll(b[o..], n, load), size, at)
    decreases n
  {
    hide Shrinks, Format, ElementsAt;
    if n == 0 {
      NoElements(b, o, size, at);
    } else {
      hide AllExact;
      var p := load(b[o..]);
      FormatAt(b, o, load, size, at);
      if p.Ok? {
        ElementsRead(b, o + size(p.v), n - 1, load, size, at);
        OneMore(b, o, n - 1, p, LoadAll(p.rest, n - 1, load), size, at);
      } else {
        NoMore(b, o, n, p, p.e, size, at);
      }
    }
  }

  lemma NoElements<T(!new)>(b: Str, o: nat, size: T -> nat, at: (Str, nat, T) -> bool)
    ensures ElementsAt(b, o, [], size, at)
  {
  }

  lemma FormatAt<T(!new)>(b: Str, o: nat, load: Str -> Parsed<T>, size: T -> nat, at: (Str, nat, T) -> bool)
    requires o <= |b| && Format(b, load, size, at)
    ensures Exact(b, o, load(b[o..]), size, at)
  {
  }

  /** A vector is read as the format says. */
  lemma VectorRead<T(!new)>(b: Str, o: nat, load: Str -> Parsed<T>, size: T -> nat, at: (Str, nat, T) -> bool)
    requires o <= |b| && Shrinks(load) && Format(b, load, size, at)
    ensures var p := LoadVector(b[o..], load);
      && (p.Ok? ==> VectorAt(b, o, p.v, size, at) && Rest(b, o + VectorSize(p.v, size), p.rest))
      && forall l :: VectorAt(b, o, l, size, at) ==> p.Ok? && p.v == l
  {
    hide Shrinks, Format, ElementsAt, LoadInt, IntAt;
    IntRead(b, o);
    var n := LoadInt(b[o..]);
    if n.Ok? { ElementsRead(b, o + 4, n.v, load, size, at); }
  }

  /** The part of a function before the functions in it; `s` is the source as it is written. */
  ghost predicate HeadAt(b: Str, o: nat, h: Head, parent: Option<Str>, s: Option<Str>)
  {
    var n := o + StringSize(s);
    var c := n + 12 + VectorSize(h.code, Four);
    && StringAt(b, o, s) && h.source == (if s.None? then parent else s)
    && IntAt(b, n, h.linedefined) && IntAt(b, n + 4, h.lastlinedefined)
    && n + 12 <= |b| && h.bytes == b[n + 8..n + 12]
    && VectorAt(b, n + 12, h.code, Four, InstructionAt) && VectorAt(b, c, h.k, ConstSize, ConstAt)
  }

  function HeadSize(h: Head, s: Option<Str>): nat
  {
    StringSize(s) + 12 + VectorSize(h.code, Four) + VectorSize(h.k, ConstSize)
  }

  /** The part of a function after the functions in it. */
  ghost predicate TailAt(b: Str, o: nat, t: Tail)
  {
    var v := o + VectorSize(t.lineinfo, Four);
    var u := v + VectorSize(t.locvars, LocVarSize);
    && VectorAt(b, o, t.lineinfo, Four, LineAt) && VectorAt(b, v, t.locvars, LocVarSize, LocVarAt)
    && VectorAt(b, u, t.upvalues, StringSize, StringAt)
  }

  function TailSize(t: Tail): nat
  {
    VectorSize(t.lineinfo, Four) + VectorSize(t.locvars, LocVarSize) + VectorSize(t.upvalues, StringSize)
  }

  function HeadOf(f: Proto): Head
  {
    Head(f.source, f.linedefined, f.lastlinedefined, [f.nups, f.numparams, f.isVararg, f.maxstacksize], f.code, f.k)
  }

  function TailOf(f: Proto): Tail { Tail(f.lineinfo, f.locvars, f.upvalues) }

  /** A function lies from `o` up to `e`. */
  ghost predicate FunctionAt(b: Str, o: nat, f: Proto, parent: Option<Str>, e: nat)
    decreases f, 1
  {
    exists s, d :: FunctionWith(b, o, f, parent, e, s, d)
  }

  /** With the source as it is written, and the offset of the debug information. */
  ghost predicate FunctionWith(b: Str, o: nat, f: Proto, parent: Option<Str>, e: nat, s: Option<Str>, d: nat)
    decreases f, 0, |f.p| + 1
  {
    var q := o + HeadSize(HeadOf(f), s);
    && HeadAt(b, o, HeadOf(f), parent, s) && IntAt(b, q, |f.p|) && ProtosAt(b, q + 4, f, 0, d)
    && TailAt(b, d, TailOf(f)) && e == d + TailSize(TailOf(f))
  }

  /** The functions in `f`, from number `i` on. */
  ghost predicate ProtosAt(b: Str, o: nat, f: Proto, i: nat, e: nat)
    decreases f, 0, |f.p| - i
  {
    if i >= |f.p| then o == e
    else exists m :: FunctionAt(b, o, f.p[i], f.source, m) && ProtosAt(b, m, f, i + 1, e)
  }

  lemma Formats(b: Str)
    ensures Format(b, LoadInstr, Four, InstructionAt) && Format(b, LoadConst, ConstSize, ConstAt)
    ensures Format(b, LoadRaw, Four, LineAt) && Format(b, LoadLocVar, LocVarSize, LocVarAt)
    ensures Format(b, LoadString, StringSize, StringAt)
  {
    hide Exact;
    forall o: nat | o <= |b| ensures Exact(b, o, LoadInstr(b[o..]), Four, InstructionAt) { InstructionRead(b, o); }
    forall o: nat | o <= |b| ensures Exact(b, o, LoadConst(b[o..]), ConstSize, ConstAt) { ConstRead(b, o); }
    forall o: nat | o <= |b| ensures Exact(b, o, LoadRaw(b[o..]), Four, LineAt) { LineRead(b, o); }
    forall o: nat | o <= |b| ensures Exact(b, o, LoadLocVar(b[o..]), LocVarSize, LocVarAt) { LocVarRead(b, o); }
    forall o: nat | o <= |b| ensures Exact(b, o, LoadString(b[o..]), StringSize, StringAt) { StringRead(b, o); }
  }

  lemma HeadRead(b: Str, o: nat, parent: Option<Str>) returns (s: Option<Str>)
    requires o <= |b|
    ensures var p := LoadHead(b[o..], parent);
      && (p.Ok? ==> HeadAt(b, o, p.v, parent, s) && Rest(b, o + HeadSize(p.v, s), p.rest))
      && forall h, s' :: HeadAt(b, o, h, parent, s') ==> p.Ok? && p.v == h && s' == s
  {
    hide LoadString, LoadInt, LoadVector, StringAt, IntAt, VectorAt, VectorSize, StringSize, Format;
    Formats(b);
    StringRead(b, o);
    var p0 := LoadString(b[o..]);
    s := if p0.Ok? then p0.v else None;
    if p0.Ok? {
      var n := o + StringSize(s);
      IntRead(b, n);
      if LoadInt(b[n..]).Ok? {
        IntRead(b, n + 4);
        if LoadInt(b[n + 4..]).Ok? {
          Slice(b, n + 8, 4);
          if n + 12 <= |b| {
            VectorRead(b, n + 12, LoadInstr, Four, InstructionAt);
            var p1 := LoadVector(b[n + 12..], LoadInstr);
            if p1.Ok? { VectorRead(b, n + 12 + VectorSize(p1.v, Four), LoadConst, ConstSize, ConstAt); }
          }
        }
      }
    }
  }

  lemma TailRead(b: Str, o: nat)
    requires o <= |b|
    ensures Exact(b, o, LoadTail(b[o..]), TailSize, TailAt)
  {
    hide LoadVector, VectorAt, VectorSize, Format;
    Formats(b);
    VectorRead(b, o, LoadRaw, Four, LineAt);
    var p := LoadVector(b[o..], LoadRaw);
    if p.Ok? {
      var v := o + VectorSize(p.v, Four);
      VectorRead(b, v, LoadLocVar, LocVarSize, LocVarAt);
      var p1 := LoadVector(b[v..], LoadLocVar);
      if p1.Ok? { VectorRead(b, v + VectorSize(p1.v, LocVarSize), LoadString, StringSize, StringAt); }
    }
  }

  /** What is loaded is what the format says is there. */
  lemma {:induction false} FunctionFound(b: Str, o: nat, f: Proto, parent: Option<Str>, check: Proto -> bool, r: Str)
      returns (e: nat)
    requires o <= |b| && LoadFunction(b[o..], parent, check) == Ok(f, r)
    ensures FunctionAt(b, o, f, parent, e) && Rest(b, e, r) && Checked(f, check)
    decreases f, 1
  {
    hide LoadHead, LoadTail, LoadInt, HeadAt, HeadSize, TailAt, TailSize, IntAt, LoadProtos, Checked, ProtosAt;
    var p := LoadHead(b[o..], parent);
    var h := p.v;
    var s := HeadRead(b, o, parent);
    var q := o + HeadSize(h, s);
    IntRead(b, q);
    var l := LoadProtos(b[q + 4..], LoadInt(b[q..]).v, h.source, check);
    assert f.p == l.v && HeadOf(f) == h by { FourBytes(h.bytes); }
    assert f.p[0..] == f.p;
    var d := ProtosFound(b, q + 4, f, 0, check, l.rest);
    TailRead(b, d);
    assert TailOf(f) == LoadTail(b[d..]).v;
    e := d + TailSize(TailOf(f));
    assert FunctionWith(b, o, f, parent, e, s, d);
    AllChecked(f, check);
  }

  lemma FourBytes(bytes: Str)
    requires |bytes| == 4
    ensures bytes == [bytes[0], bytes[1], bytes[2], bytes[3]]
  {
  }

  lemma AllChecked(f: Proto, check: Proto -> bool)
    requires check(f) && forall i :: 0 <= i < |f.p| ==> Checked(f.p[i], check)
    ensures Checked(f, check)
  {
  }

  lemma {:induction false} ProtosFound(b: Str, o: nat, f: Proto, i: nat, check: Proto -> bool, r: Str) returns (e: nat)
    requires o <= |b| && i <= |f.p| && LoadProtos(b[o..], |f.p| - i, f.source, check) == Ok(f.p[i..], r)
    ensures ProtosAt(b, o, f, i, e) && Rest(b, e, r) && forall j :: i <= j < |f.p| ==> Checked(f.p[j], check)
    decreases f, 0, |f.p| - i
  {
    hide FunctionAt, LoadFunction, Checked;
    if i == |f.p| {
      e := o;
    } else {
      var p := LoadFunction(b[o..], f.source, check);
      var l := LoadProtos(p.rest, |f.p| - i - 1, f.source, check);
      assert f.p[i..] == [p.v] + l.v;
      assert f.p[i] == f.p[i..][0] == p.v && f.p[i + 1..] == f.p[i..][1..] == l.v;
      var m := FunctionFound(b, o, f.p[i], f.source, check, p.rest);
      e := ProtosFound(b, m, f, i + 1, check, l.rest);
    }
  }

  /** And what is in the format is loaded, if its code passes the check. */
  lemma {:induction false} FunctionLoads(b: Str, o: nat, f: Proto, parent: Option<Str>, check: Proto -> bool, e: nat)
    requires o <= |b| && FunctionAt(b, o, f, parent, e) && Checked(f, check)
    ensures e <= |b| && LoadFunction(b[o..], parent, check) == Ok(f, b[e..])
    decreases f, 1
  {
    hide LoadHead, LoadTail, LoadInt, HeadAt, HeadSize, TailAt, TailSize, IntAt, LoadProtos, ProtosAt;
    var s, d :| FunctionWith(b, o, f, parent, e, s, d);
    var s' := HeadRead(b, o, parent);
    var q := o + HeadSize(HeadOf(f), s);
    IntRead(b, q);
    assert f.p[0..] == f.p;
    ProtosLoad(b, q + 4, f, 0, check, d);
    TailRead(b, d);
  }

  lemma {:induction false} ProtosLoad(b: Str, o: nat, f: Proto, i: nat, check: Proto -> bool, e: nat)
    requires o <= |b| && i <= |f.p| && ProtosAt(b, o, f, i, e) && forall j :: i <= j < |f.p| ==> Checked(f.p[j], check)
    ensures e <= |b| && LoadProtos(b[o..], |f.p| - i, f.source, check) == Ok(f.p[i..], b[e..])
    decreases f, 0, |f.p| - i
  {
    hide FunctionAt, LoadFunction, Checked;
    if i < |f.p| {
      var m :| FunctionAt(b, o, f.p[i], f.source, m) && ProtosAt(b, m, f, i + 1, e);
      FunctionLoads(b, o, f.p[i], f.source, check, m);
      ProtosLoad(b, m, f, i + 1, check, e);
      assert f.p[i..] == [f.p[i]] + f.p[i + 1..];
    }
  }

  /** The header: the signature, version 5.1, format 0, the low byte first, and the sizes 4, 8, 4 and 8 of int, size_t,
      Instruction and lua_Number, which has fractions. */
  predicate HeaderAt(b: Str) { |b| >= 12 && b[..12] == [27, 76, 117, 97, 81, 0, 1, 4, 8, 4, 8, 0] }

  /** A chunk, whose function is called "=?" if it does not say its source, up to `e`. */
  ghost predicate ChunkAt(b: Str, f: Proto, e: nat) { HeaderAt(b) && FunctionAt(b, 12, f, Some([61, 63]), e) }

  /** luaU_undump accepts exactly the chunks of the format whose code passes the check. */
  lemma ChunkExactly(b: Str, f: Proto, check: Proto -> bool, r: Str)
    ensures LoadChunk(b, check) == Ok(f, r) <==> Checked(f, check) && exists e :: ChunkAt(b, f, e) && Rest(b, e, r)
  {
    hide LoadFunction, FunctionAt, Checked;
    if HeaderAt(b) {
      if LoadChunk(b, check) == Ok(f, r) {
        var e := FunctionFound(b, 12, f, Some([61, 63]), check, r);
        assert ChunkAt(b, f, e);
      }
      if e :| Checked(f, check) && ChunkAt(b, f, e) && Rest(b, e, r) {
        FunctionLoads(b, 12, f, Some([61, 63]), check, e);
      }
    }
  }

  /** A chunk with another header, or without one, is refused. */
  lemma ChunkRefused(b: Str, check: Proto -> bool)
    ensures |b| < 12 ==> LoadChunk(b, check) == Err(UnexpectedEnd)
    ensures |b| >= 12 && !HeaderAt(b) ==> LoadChunk(b, check) == Err(BadHeader)
  {
  }

  /** The bytes of a constant: 0, 1, 3 or 4 for its type; a string ends with a zero byte. */
  lemma ConstWritten(c: Const)
    requires ConstOk(c)
    ensures var b := DumpConst(c);
      && ConstAt(b, 0, c) && |b| == ConstSize(c)
      && (c.KBool? ==> b[1] <= 1) && (c.KStr? && c.s.Some? ==> b[|b| - 1] == 0)
  {
    var b := DumpConst(c);
    assert b + [] == b && b[0..] == b;
    ConstInverse(c, []);
    ConstRead(b, 0);
  }

  predicate Always(f: Proto) { true }

  lemma {:induction false} AlwaysChecked(f: Proto)
    ensures Checked(f, Always)
  {
    forall i | 0 <= i < |f.p| ensures Checked(f.p[i], Always) { AlwaysChecked(f.p[i]); }
  }

  /** A dumped function has the format. */
  lemma FunctionWritten(f: Proto, parent: Option<Str>, loaded: Option<Str>, strip: bool)
    requires Fits(f)
    ensures var b := DumpFunction(f, parent, strip);
      FunctionAt(b, 0, Restored(f, parent, loaded, strip), loaded, |b|)
  {
    hide Fits, Restored, DumpFunction, LoadFunction, FunctionAt, Checked;
    var b := DumpFunction(f, parent, strip);
    AlwaysChecked(Restored(f, parent, loaded, strip));
    FunctionInverse(f, parent, loaded, strip, Always, []);
    assert b + [] == b && b[0..] == b;
    var e := FunctionFound(b, 0, Restored(f, parent, loaded, strip), loaded, Always, []);
    assert e == |b|;
  }

  /** And so has a dumped chunk. */
  lemma ChunkWritten(f: Proto, strip: bool)
    requires Fits(f)
    ensures var b := DumpChunk(f, strip); ChunkAt(b, Restored(f, None, Some([61, 63]), strip), |b|)
  {
    hide Fits, Restored, DumpChunk, LoadChunk, ChunkAt, Checked;
    var b := DumpChunk(f, strip);
    var g := Restored(f, None, Some([61, 63]), strip);
    AlwaysChecked(g);
    ChunkInverse(f, strip, Always);
    ChunkExactly(b, g, Always, []);
    var e :| ChunkAt(b, g, e) && Rest(b, e, []);
    assert e == |b|;
  }
}

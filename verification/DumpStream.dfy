/** Chunks as streams: the buffered input of lzio.c, the loader of lundump.c on top of it, and the
    writer of ldump.c. */
module DumpStream {
  import opened Base
  import opened Dump

  const EOZ := -1

  function Flatten(chunks: seq<Str>): Str { if chunks == [] then [] else chunks[0] + Flatten(chunks[1..]) }

  /** A buffered stream: the bytes at hand, and the pieces that the reader is going to give. */
  class Zio {
    var p: Str
    var chunks: seq<Str>

    constructor (chunks: seq<Str>)
      requires forall i :: 0 <= i < |chunks| ==> chunks[i] != []
      ensures Valid() && Stream() == Flatten(chunks)
    {
      this.p, this.chunks := [], chunks;
    }

    /** No piece is empty: that would be the end of the stream. */
    ghost predicate Valid()
      reads this
    {
      forall i :: 0 <= i < |chunks| ==> chunks[i] != []
    }

    /** All the bytes still to come. */
    function Stream(): Str
      reads this
    {
      p + Flatten(chunks)
    }

    /** luaZ_fill, when there is nothing at hand: the first byte of the next piece is taken. */
    method Fill() returns (c: int)
      requires Valid() && p == []
      modifies this
      ensures Valid() && (c == EOZ <==> old(Stream()) == []) && (c == EOZ ==> Stream() == [])
      ensures c != EOZ ==> 0 <= c < 256 && old(Stream()) == [c] + Stream()
      ensures c != EOZ ==> |old(chunks)| > 0 && old(chunks)[0] == [c] + p && chunks == old(chunks)[1..]
    {
      if chunks == [] { return EOZ; }
      c := chunks[0][0];
      assert chunks[0] == [chunks[0][0]] + chunks[0][1..];
      p := chunks[0][1..];
      chunks := chunks[1..];
    }

    /** luaZ_lookahead. */
    method Lookahead() returns (c: int)
      requires Valid()
      modifies this
      ensures Valid() && Stream() == old(Stream()) && (c == EOZ <==> Stream() == [])
      ensures (c != EOZ ==> p != [] && c == p[0])
    {
      if p == [] {
        c := Fill();
        if c == EOZ { return; }
        p := [c] + p;
      } else {
        c := p[0];
      }
    }

    /** luaZ_read: `n` bytes, from as many pieces as it takes, or the number of those missing. */
    method Read(n0: nat) returns (b: Str, missing: nat)
      requires Valid()
      modifies this
      ensures Valid() && (missing > 0 <==> |old(Stream())| < n0)
      ensures missing == 0 ==> |b| == n0 && old(Stream()) == b + Stream()
    {
      b := [];
      var n := n0;
      assert [] + Stream() == Stream();
      while n > 0
        invariant Valid() && 0 <= n <= n0 && |b| == n0 - n && old(Stream()) == b + Stream()
        decreases n
      {
        var c := Lookahead();
        if c == EOZ { return b, n; }
        var m := if n <= |p| then n else |p|;
        assert b + (p + Flatten(chunks)) == b + p[..m] + (p[m..] + Flatten(chunks));
        b := b + p[..m];
        p := p[m..];
        n := n - m;
      }
      missing := 0;
    }
  }

  /** The outcome of a loading step: the value, or the error that is thrown. */
  datatype Loaded<T> = Good(v: T) | Bad(e: Error) {
    predicate IsFailure() { Bad? }

    function PropagateFailure<U>(): Loaded<U>
      requires IsFailure()
    {
      Bad(e)
    }

    function Extract(): T
      requires !IsFailure()
    {
      v
    }
  }

  /** A step that read `r` from a stream did what the specification says of its bytes. */
  ghost predicate Agrees<T(!new)>(spec: Parsed<T>, r: Loaded<T>, rest: Str)
  {
    match spec
    case Ok(v, rest') => r == Good(v) && rest == rest'
    case Err(e) => r == Bad(e)
  }

  /** The values read so far, in front of those still to be read. */
  function Prepend<T>(l: seq<T>, r: Parsed<seq<T>>): Parsed<seq<T>> { if r.Ok? then Ok(l + r.v, r.rest) else r }

  /** Words that are read in one block, for vectors of code and line numbers. */
  function Words(b: Str, n: nat, word: Str -> int): seq<int>
    requires |b| == 4 * n
  {
    if n == 0 then [] else [word(b[..4])] + Words(b[4..], n - 1, word)
  }

  lemma {:induction false} BlockOfWords(b: Str, n: nat, load: Str -> Parsed<int>, word: Str -> int)
    requires Shrinks(load) && forall c :: load(c) == if |c| < 4 then Err(UnexpectedEnd) else Ok(word(c[..4]), c[4..])
    ensures LoadAll(b, n, load) == if |b| < 4 * n then Err(UnexpectedEnd)
      else Ok(Words(b[..4 * n], n, word), b[4 * n..])
    decreases n
  {
    if n > 0 && |b| >= 4 {
      BlockOfWords(b[4..], n - 1, load, word);
      if |b| >= 4 * n {
        assert b[4..][..4 * (n - 1)] == b[..4 * n][4..] && b[4..][4 * (n - 1)..] == b[4 * n..]
          && b[..4 * n][..4] == b[..4];
      }
    }
  }

  lemma CodeBlock(b: Str, n: nat)
    ensures LoadAll(b, n, LoadInstr) == if |b| < 4 * n then Err(UnexpectedEnd)
      else Ok(Words(b[..4 * n], n, WordOf), b[4 * n..])
  {
    hide WordOf;
    BlockOfWords(b, n, LoadInstr, WordOf);
  }

  lemma LineBlock(b: Str, n: nat)
    ensures LoadAll(b, n, LoadRaw) == if |b| < 4 * n then Err(UnexpectedEnd)
      else Ok(Words(b[..4 * n], n, IntOf), b[4 * n..])
  {
    hide IntOf;
    BlockOfWords(b, n, LoadRaw, IntOf);
  }

  /** One more element of a vector. */
  lemma OneMore<T(!new)>(l: seq<T>, b: Str, n: nat, load: Str -> Parsed<T>)
    requires Shrinks(load) && n > 0
    ensures Prepend(l, LoadAll(b, n, load)) ==
      if load(b).Err? then Err(load(b).e) else Prepend(l + [load(b).v], LoadAll(load(b).rest, n - 1, load))
  {
    if load(b).Ok? {
      var r := LoadAll(load(b).rest, n - 1, load);
      if r.Ok? { assert l + ([load(b).v] + r.v) == l + [load(b).v] + r.v; }
    }
  }

  lemma OneMoreProto(l: seq<Proto>, b: Str, n: nat, parent: Option<Str>, check: Proto -> bool)
    requires n > 0
    ensures var f := LoadFunction(b, parent, check);
      Prepend(l, LoadProtos(b, n, parent, check)) == if f.Err? then Err(f.e)
        else Prepend(l + [f.v], LoadProtos(f.rest, n - 1, parent, check))
  {
    hide LoadFunction;
    var f := LoadFunction(b, parent, check);
    if f.Ok? {
      var r := LoadProtos(f.rest, n - 1, parent, check);
      if r.Ok? { assert l + ([f.v] + r.v) == l + [f.v] + r.v; }
    }
  }

  lemma PrependNone<T>(r: Parsed<seq<T>>)
    ensures Prepend([], r) == r
  {
    if r.Ok? { assert [] + r.v == r.v; }
  }

  lemma PrependDone<T>(l: seq<T>, b: Str)
    ensures Prepend(l, Ok([], b)) == Ok(l, b)
  {
    assert l + [] == l;
  }

  class LoadState {
    const z: Zio
    const check: Proto -> bool

    constructor (z: Zio, check: Proto -> bool)
      ensures this.z == z && this.check == check
    {
      this.z, this.check := z, check;
    }

    method Block(n: nat) returns (r: Loaded<Str>)
      requires z.Valid()
      modifies z
      ensures z.Valid() && Agrees(LoadBlock(old(z.Stream()), n), r, z.Stream())
    {
      var b, missing := z.Read(n);
      if missing != 0 { return Bad(UnexpectedEnd); }
      assert old(z.Stream())[..n] == b && old(z.Stream())[n..] == z.Stream();
      r := Good(b);
    }

    method Int() returns (r: Loaded<nat>)
      requires z.Valid()
      modifies z
      ensures z.Valid() && Agrees(LoadInt(old(z.Stream())), r, z.Stream())
    {
      var b :- Block(4);
      var x := IntOf(b);
      if x < 0 { return Bad(BadInteger); }
      r := Good(x);
    }

    method Char() returns (r: Loaded<Byte>)
      requires z.Valid()
      modifies z
      ensures z.Valid() && Agrees(LoadByte(old(z.Stream())), r, z.Stream())
    {
      var b :- Block(1);
      r := Good(b[0]);
    }

    method Text() returns (r: Loaded<Option<Str>>)
      requires z.Valid()
      modifies z
      ensures z.Valid() && Agrees(LoadString(old(z.Stream())), r, z.Stream())
    {
      var b :- Block(8);
      var size := Value(b);
      if size == 0 { return Good(None); }
      var s :- Block(size);
      r := Good(Some(s[..size - 1]));
    }

    method Constant() returns (r: Loaded<Const>)
      requires z.Valid()
      modifies z
      ensures z.Valid() && Agrees(LoadConst(old(z.Stream())), r, z.Stream())
    {
      hide LoadByte, LoadBlock, LoadString;
      var t :- Char();
      if t == LUA_TNIL {
        r := Good(KNil);
      } else if t == LUA_TBOOLEAN {
        var v :- Char();
        r := Good(KBool(v != 0));
      } else if t == LUA_TNUMBER {
        var v :- Block(8);
        r := Good(KNum(v));
      } else if t == LUA_TSTRING {
        var s :- Text();
        r := Good(KStr(s));
      } else {
        r := Bad(BadConstant);
      }
    }

    /** LoadCode. */
    method Code() returns (r: Loaded<seq<int>>)
      requires z.Valid()
      modifies z
      ensures z.Valid() && Agrees(LoadVector(old(z.Stream()), LoadInstr), r, z.Stream())
    {
      hide LoadInt, LoadInstr, LoadAll, WordOf;
      var n :- Int();
      CodeBlock(z.Stream(), n);
      var b :- Block(4 * n);
      r := Good(Words(b, n, WordOf));
    }

    /** The constants. */
    method Constants() returns (r: Loaded<seq<Const>>)
      requires z.Valid()
      modifies z
      ensures z.Valid() && Agrees(LoadVector(old(z.Stream()), LoadConst), r, z.Stream())
    {
      hide LoadInt, LoadConst, LoadAll, Prepend;
      var n :- Int();
      ghost var all := LoadAll(z.Stream(), n, LoadConst);
      PrependNone(all);
      var l := [];
      for i := 0 to n
        invariant z.Valid() && all == Prepend(l, LoadAll(z.Stream(), n - i, LoadConst))
      {
        OneMore(l, z.Stream(), n - i, LoadConst);
        var c :- Constant();
        l := l + [c];
      }
      assert LoadAll(z.Stream(), 0, LoadConst) == Ok([], z.Stream()) by { LoadNone(z.Stream(), LoadConst); }
      PrependDone(l, z.Stream());
      r := Good(l);
    }

    method Variable() returns (r: Loaded<LocVar>)
      requires z.Valid()
      modifies z
      ensures z.Valid() && Agrees(LoadLocVar(old(z.Stream())), r, z.Stream())
    {
      hide LoadInt, LoadString;
      var name :- Text();
      var startpc :- Int();
      var endpc :- Int();
      r := Good(LocVar(name, startpc, endpc));
    }

    /** LoadDebug. */
    method Debug() returns (r: Loaded<Tail>)
      requires z.Valid()
      modifies z
      ensures z.Valid() && Agrees(LoadTail(old(z.Stream())), r, z.Stream())
    {
      hide LoadInt, LoadVector;
      var lineinfo :- Lines();
      var locvars :- Variables();
      var upvalues :- Names();
      r := Good(Tail(lineinfo, locvars, upvalues));
    }

    method Lines() returns (r: Loaded<seq<int>>)
      requires z.Valid()
      modifies z
      ensures z.Valid() && Agrees(LoadVector(old(z.Stream()), LoadRaw), r, z.Stream())
    {
      hide LoadInt, LoadRaw, LoadAll, IntOf;
      var n :- Int();
      LineBlock(z.Stream(), n);
      var b :- Block(4 * n);
      r := Good(Words(b, n, IntOf));
    }

    method Variables() returns (r: Loaded<seq<LocVar>>)
      requires z.Valid()
      modifies z
      ensures z.Valid() && Agrees(LoadVector(old(z.Stream()), LoadLocVar), r, z.Stream())
    {
      hide LoadInt, LoadLocVar, LoadAll, Prepend;
      var n :- Int();
      ghost var all := LoadAll(z.Stream(), n, LoadLocVar);
      PrependNone(all);
      var l := [];
      for i := 0 to n
        invariant z.Valid() && all == Prepend(l, LoadAll(z.Stream(), n - i, LoadLocVar))
      {
        OneMore(l, z.Stream(), n - i, LoadLocVar);
        var v :- Variable();
        l := l + [v];
      }
      assert LoadAll(z.Stream(), 0, LoadLocVar) == Ok([], z.Stream()) by { LoadNone(z.Stream(), LoadLocVar); }
      PrependDone(l, z.Stream());
      r := Good(l);
    }

    method Names() returns (r: Loaded<seq<Option<Str>>>)
      requires z.Valid()
      modifies z
      ensures z.Valid() && Agrees(LoadVector(old(z.Stream()), LoadString), r, z.Stream())
    {
      hide LoadInt, LoadString, LoadAll, Prepend;
      var n :- Int();
      ghost var all := LoadAll(z.Stream(), n, LoadString);
      PrependNone(all);
      var l := [];
      for i := 0 to n
        invariant z.Valid() && all == Prepend(l, LoadAll(z.Stream(), n - i, LoadString))
      {
        OneMore(l, z.Stream(), n - i, LoadString);
        var s :- Text();
        l := l + [s];
      }
      assert LoadAll(z.Stream(), 0, LoadString) == Ok([], z.Stream()) by { LoadNone(z.Stream(), LoadString); }
      PrependDone(l, z.Stream());
      r := Good(l);
    }

    /** The fields of a function before the functions in it. */
    method Fields(parent: Option<Str>) returns (r: Loaded<Head>)
      requires z.Valid()
      modifies z
      ensures z.Valid() && Agrees(LoadHead(old(z.Stream()), parent), r, z.Stream())
    {
      hide LoadInt, LoadString, LoadVector, LoadBlock;
      var source :- Text();
      var linedefined :- Int();
      var lastlinedefined :- Int();
      var bytes :- Block(4);
      var code :- Code();
      var k :- Constants();
      r := Good(Head(if source.None? then parent else source, linedefined, lastlinedefined, bytes, code, k));
    }

    /** LoadFunction. */
    method Function(parent: Option<Str>) returns (r: Loaded<Proto>)
      requires z.Valid()
      modifies z
      ensures z.Valid() && Agrees(LoadFunction(old(z.Stream()), parent, check), r, z.Stream())
      decreases |z.Stream()|, 0
    {
      hide LoadInt, LoadHead, LoadTail, LoadProtos;
      var h :- Fields(parent);
      var n :- Int();
      var p :- Functions(n, h.source);
      var t :- Debug();
      var f := Assemble(h, p, t);
      if !check(f) { return Bad(BadCode); }
      r := Good(f);
    }

    method Functions(n: nat, parent: Option<Str>) returns (r: Loaded<seq<Proto>>)
      requires z.Valid()
      modifies z
      ensures z.Valid() && Agrees(LoadProtos(old(z.Stream()), n, parent, check), r, z.Stream())
      decreases |z.Stream()|, 1
    {
      hide LoadFunction, LoadProtos, Prepend;
      ghost var all := LoadProtos(z.Stream(), n, parent, check);
      PrependNone(all);
      var l := [];
      for i := 0 to n
        invariant z.Valid() && |z.Stream()| <= old(|z.Stream()|)
        invariant all == Prepend(l, LoadProtos(z.Stream(), n - i, parent, check))
      {
        OneMoreProto(l, z.Stream(), n - i, parent, check);
        var f :- Function(parent);
        l := l + [f];
      }
      assert LoadProtos(z.Stream(), 0, parent, check)
        == Ok([], z.Stream()) by { LoadNoProtos(z.Stream(), parent, check); }
      PrependDone(l, z.Stream());
      r := Good(l);
    }

    /** luaU_undump. */
    method Undump() returns (r: Loaded<Proto>)
      requires z.Valid()
      modifies z
      ensures z.Valid() && Agrees(LoadChunk(old(z.Stream()), check), r, z.Stream())
    {
      hide LoadFunction, LoadBlock;
      var h :- Block(|HEADER|);
      if h != HEADER { return Bad(BadHeader); }
      r := Function(Some(UNNAMED));
    }
  }

  lemma LoadNone<T(!new)>(b: Str, load: Str -> Parsed<T>)
    requires Shrinks(load)
    ensures LoadAll(b, 0, load) == Ok([], b)
  {
  }

  lemma LoadNoProtos(b: Str, parent: Option<Str>, check: Proto -> bool)
    ensures LoadProtos(b, 0, parent, check) == Ok([], b)
  {
  }
}

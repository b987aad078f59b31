/** SHA-1: the hash function (sections 4.1.1, 4.2.1, 5.3.1 and 6.1 of FIPS 180-4) and the streaming
    implementation of sha1.c. */
module Sha1 {
  import opened Base
  import opened Sha

  /** The five words of a hash value, or the working variables. */
  datatype Hash = Hash(a: Word, b: Word, c: Word, d: Word, e: Word)

  const H0 := Hash(0x67452301, 0xEFCDAB89, 0x98BADCFE, 0x10325476, 0xC3D2E1F0)

  function RotL(b: nat, x: Word): Word requires b <= 32 { (x << b) | (x >> (32 - b)) }

  function Parity(x: Word, y: Word, z: Word): Word { x ^ y ^ z }

  function Logical(t: nat, x: Word, y: Word, z: Word): Word
  {
    if t < 20 then Ch(x, y, z) else if t < 40 then Parity(x, y, z) else if t < 60 then Maj(x, y, z) else Parity(x, y, z)
  }

  function Constant(t: nat): Word
  {
    if t < 20 then 0x5A827999 else if t < 40 then 0x6ED9EBA1 else if t < 60 then 0x8F1BBCDC else 0xCA62C1D6
  }

  function Mix(w3: Word, w8: Word, w14: Word, w16: Word): Word { RotL(1, w3 ^ w8 ^ w14 ^ w16) }

  /** The message schedule. */
  function Schedule(block: seq<Byte>, t: nat): Word
    requires |block| == BLOCK
  {
    if t < 16 then WordAt(block, t)
    else Mix(Schedule(block, t - 3), Schedule(block, t - 8), Schedule(block, t - 14), Schedule(block, t - 16))
  }

  function Round(s: Hash, t: nat, w: Word): Hash
  {
    var x := Add(Add(Add(Add(RotL(5, s.a), Logical(t, s.b, s.c, s.d)), s.e), Constant(t)), w);
    Hash(x, s.a, RotL(30, s.b), s.c, s.d)
  }

  /** The working variables after `t` rounds. */
  function Rounds(s: Hash, block: seq<Byte>, t: nat): Hash
    requires |block| == BLOCK
  {
    if t == 0 then s else Round(Rounds(s, block, t - 1), t - 1, Schedule(block, t - 1))
  }

  function Sum(s: Hash, r: Hash): Hash
  {
    Hash(Add(s.a, r.a), Add(s.b, r.b), Add(s.c, r.c), Add(s.d, r.d), Add(s.e, r.e))
  }

  function Compress(s: Hash, block: seq<Byte>): Hash
  {
    if |block| == BLOCK then Sum(s, Rounds(s, block, 80)) else s
  }

  function Digest(s: Hash): seq<Byte> { BytesOf(s.a) + BytesOf(s.b) + BytesOf(s.c) + BytesOf(s.d) + BytesOf(s.e) }

  /** SHA-1 of a message. */
  function Sha1(m: seq<Byte>): seq<Byte> { Digest(Fold(Compress, H0, m + Padding(|m|))) }

  /** blk0. */
  function Blk0(l: Word): Word { (((l << 24) | (l >> 8)) & 0xFF00FF00) | (((l << 8) | (l >> 24)) & 0x00FF00FF) }

  lemma SwappedLoad(block: seq<Byte>, t: nat)
    requires 4 * t + 4 <= |block|
    ensures Blk0(LoadLE(block[4 * t], block[4 * t + 1], block[4 * t + 2], block[4 * t + 3])) == WordAt(block, t)
  {
  }

  /** The choice and the majority as they are computed. */
  lemma Rewritten(w: Word, x: Word, y: Word)
    ensures (w & (x ^ y)) ^ y == Ch(w, x, y) && ((w | x) & y) | (w & x) == Maj(w, x, y)
  {
  }

  lemma Associative(x: Word, y: Word, z: Word)
    ensures x + y + z == x + (y + z)
  {
  }

  lemma AddAssociates(x: Word, y: Word, z: Word)
    ensures Add(Add(x, y), z) == Add(x, Add(y, z))
  {
    calc {
      Add(Add(x, y), z);
      Add(x + y, z);
      x + y + z;
      { Associative(x, y, z); }
      x + (y + z);
      Add(x, y + z);
      Add(x, Add(y, z));
    }
  }

  lemma AddLaws(x: Word, y: Word, z: Word)
    ensures Add(x, y) == Add(y, x)
    ensures Add(Add(x, y), z) == Add(x, Add(y, z))
  {
    hide Add;
    AddCommutes(x, y);
    AddAssociates(x, y, z);
  }

  lemma Reorder(z: Word, f: Word, k: Word, w: Word, r: Word)
    ensures Add(z, Add(Add(Add(f, w), k), r)) == Add(Add(Add(Add(r, f), z), k), w)
  {
    hide Add;
    calc {
      Add(z, Add(Add(Add(f, w), k), r));
      { AddLaws(z, Add(Add(f, w), k), r); AddLaws(z, Add(f, w), k); AddLaws(z, f, w); }
      Add(Add(Add(Add(z, f), w), k), r);
      { AddLaws(Add(Add(z, f), w), k, r); AddLaws(k, r, r); AddLaws(Add(Add(z, f), w), r, k); }
      Add(Add(Add(Add(z, f), w), r), k);
      { AddLaws(Add(z, f), w, r); AddLaws(w, r, r); AddLaws(Add(z, f), r, w); }
      Add(Add(Add(Add(z, f), r), w), k);
      { AddLaws(Add(Add(z, f), r), w, k); AddLaws(w, k, k); AddLaws(Add(Add(z, f), r), k, w); }
      Add(Add(Add(Add(z, f), r), k), w);
      { AddLaws(Add(z, f), r, r); AddLaws(z, f, f); AddLaws(r, f, z); }
      Add(Add(Add(Add(r, f), z), k), w);
    }
  }

  /** The sixteen words in `w` are the last ones of the schedule before `t`. */
  ghost predicate Window(w: seq<Word>, block: seq<Byte>, t: nat)
    requires |block| == BLOCK
  {
    |w| == 16 && forall i :: 0 <= i < t && t - 16 <= i ==> w[i % 16] == Schedule(block, i)
  }

  lemma WindowAt(w: seq<Word>, block: seq<Byte>, t: nat, i: nat)
    requires |block| == BLOCK && Window(w, block, t) && i < t <= i + 16
    ensures w[i % 16] == Schedule(block, i)
  {
  }

  lemma WindowNext(w: seq<Word>, block: seq<Byte>, t: nat, v: Word)
    requires |block| == BLOCK && Window(w, block, t) && v == Schedule(block, t)
    ensures Window(w[t % 16 := v], block, t + 1)
  {
    hide Schedule;
    forall i | 0 <= i < t + 1 && t + 1 - 16 <= i ensures w[t % 16 := v][i % 16] == Schedule(block, i) {
      if i < t {
        ModDiffers(i, t);
        WindowAt(w, block, t, i);
      }
    }
  }

  /** blk: the expansion in place is that of the schedule. */
  lemma Expand(w: seq<Word>, block: seq<Byte>, t: nat)
    requires |block| == BLOCK && Window(w, block, t) && 16 <= t
    ensures Mix(w[(t + 13) % 16], w[(t + 8) % 16], w[(t + 2) % 16], w[t % 16]) == Schedule(block, t)
  {
    hide Mix, WordAt;
    WindowAt(w, block, t, t - 16);
    WindowAt(w, block, t, t - 3);
    WindowAt(w, block, t, t - 8);
    WindowAt(w, block, t, t - 14);
    Back(t, 16);
    Back(t, 3);
    Back(t, 8);
    Back(t, 14);
  }

  /** The word of round `i`, which also goes into the window. */
  method NextWord(w: seq<Word>, data: seq<Byte>, i: nat) returns (w': seq<Word>)
    requires |data| == BLOCK && Window(w, data, i)
    ensures Window(w', data, i + 1) && w'[i % 16] == Schedule(data, i)
  {
    hide Mix, WordAt, Blk0, LoadLE;
    WindowNext(w, data, i, Schedule(data, i));
    if i < 16 {
      SwappedLoad(data, i);
      w' := w[i := Blk0(LoadLE(data[4 * i], data[4 * i + 1], data[4 * i + 2], data[4 * i + 3]))];
    } else {
      Expand(w, data, i);
      w' := w[i % 16 := Mix(w[(i + 13) % 16], w[(i + 8) % 16], w[(i + 2) % 16], w[i % 16])];
    }
  }

  function LogicalInPlace(i: nat, w: Word, x: Word, y: Word): Word
  {
    if i < 20 then (w & (x ^ y)) ^ y else if i < 40 then w ^ x ^ y else if i < 60 then ((w | x) & y) | (w & x)
      else w ^ x ^ y
  }

  /** R0 to R4: two of the five variables change, and take each other's roles in the next round. */
  method R(v: Word, w: Word, x: Word, y: Word, z: Word, i: nat, blk: Word) returns (z': Word, w': Word)
    ensures Hash(z', v, w', x, y) == Round(Hash(v, w, x, y, z), i, blk)
  {
    hide Add, RotL, Constant;
    assert LogicalInPlace(i, w, x, y) == Logical(i, w, x, y) by { Rewritten(w, x, y); }
    hide Logical, LogicalInPlace;
    Reorder(z, Logical(i, w, x, y), Constant(i), blk, RotL(5, v));
    z' := Add(z, Add(Add(Add(LogicalInPlace(i, w, x, y), blk), Constant(i)), RotL(5, v)));
    w' := RotL(30, w);
  }

  /** SHA1Transform: four times twenty rounds, five at a time. */
  method Transform(state: Hash, data: seq<Byte>) returns (s: Hash)
    requires |data| == BLOCK
    ensures s == Compress(state, data)
  {
    hide Round, Schedule, Sum, Window;
    var a, b, c, d, e := state.a, state.b, state.c, state.d, state.e;
    var w: seq<Word> := seq(16, _ => 0);
    assert Window(w, data, 0) by { Starts(w, data); }
    var i := 0;
    while i < 80
      invariant 0 <= i <= 80 && i % 5 == 0 && Window(w, data, i) && Hash(a, b, c, d, e) == Rounds(state, data, i)
    {
      w := NextWord(w, data, i);
      WindowSize(w, data, i + 1);
      e, b := R(a, b, c, d, e, i, w[i % 16]);
      w := NextWord(w, data, i + 1);
      WindowSize(w, data, i + 2);
      d, a := R(e, a, b, c, d, i + 1, w[(i + 1) % 16]);
      w := NextWord(w, data, i + 2);
      WindowSize(w, data, i + 3);
      c, e := R(d, e, a, b, c, i + 2, w[(i + 2) % 16]);
      w := NextWord(w, data, i + 3);
      WindowSize(w, data, i + 4);
      b, d := R(c, d, e, a, b, i + 3, w[(i + 3) % 16]);
      w := NextWord(w, data, i + 4);
      WindowSize(w, data, i + 5);
      a, c := R(b, c, d, e, a, i + 4, w[(i + 4) % 16]);
      FiveRounds(state, data, i);
      i := i + 5;
    }
    s := Sum(state, Hash(a, b, c, d, e));
  }

  lemma Starts(w: seq<Word>, data: seq<Byte>)
    requires |data| == BLOCK && |w| == 16
    ensures Window(w, data, 0)
  {
  }

  lemma WindowSize(w: seq<Word>, data: seq<Byte>, t: nat)
    requires |data| == BLOCK && Window(w, data, t)
    ensures |w| == 16
  {
  }

  lemma FiveRounds(s: Hash, data: seq<Byte>, i: nat)
    requires |data| == BLOCK
    ensures Rounds(s, data, i + 5) ==
      Round(Round(Round(Round(Round(Rounds(s, data, i), i, Schedule(data, i)), i + 1, Schedule(data, i + 1)), i + 2,
        Schedule(data, i + 2)), i + 3, Schedule(data, i + 3)), i + 4, Schedule(data, i + 4))
  {
    hide Round, Schedule;
    assert Rounds(s, data, i + 1) == Round(Rounds(s, data, i), i, Schedule(data, i));
    assert Rounds(s, data, i + 2) == Round(Rounds(s, data, i + 1), i + 1, Schedule(data, i + 1));
    assert Rounds(s, data, i + 3) == Round(Rounds(s, data, i + 2), i + 2, Schedule(data, i + 2));
    assert Rounds(s, data, i + 4) == Round(Rounds(s, data, i + 3), i + 3, Schedule(data, i + 3));
  }

  /** The two words of the count hold the number of bits. */
  ghost predicate Counts(c0: nat, c1: nat, n: nat)
  {
    c0 < TWO32 && c1 < TWO32 && c0 + TWO32 * c1 == 8 * n % TWO64
  }

  /** Adding a length, with the carry from the lower word to the upper one. */
  lemma CountsAdd(c0: nat, c1: nat, n: nat, len: nat, d0: nat, d1: nat)
    requires Counts(c0, c1, n) && len < TWO32
    requires d0 == (c0 + 8 * len % TWO32) % TWO32
    requires d1 == ((if d0 < 8 * len % TWO32 then (c1 + 1) % TWO32 else c1) + len / 0x2000_0000) % TWO32
    ensures Counts(d0, d1, n + len)
  {
    var l0, l1 := 8 * len % TWO32, len / 0x2000_0000;
    LengthSplit(len);
    var carry := if c0 + l0 >= TWO32 then 1 else 0;
    LowWord(c0, l0, d0);
    HighWord(c1, carry, l1, d1);
    var over := (c1 + carry + l1) / TWO32;
    Carried(c0, c1, 8 * len, l0, l1, carry, d0, d1, over);
    CountAdds(n, len);
    ModUnique(c0 + TWO32 * c1 + 8 * len, d0 + TWO32 * d1, over);
  }

  lemma LengthSplit(len: nat)
    ensures 8 * len == TWO32 * (len / 0x2000_0000) + 8 * len % TWO32
  {
  }

  lemma LowWord(c: nat, l: nat, d: nat)
    requires c < TWO32 && l < TWO32 && d == (c + l) % TWO32
    ensures d == c + l - (if c + l >= TWO32 then TWO32 else 0) && (d < l <==> c + l >= TWO32)
  {
  }

  lemma HighWord(c: nat, carry: nat, l: nat, d: nat)
    requires c < TWO32 && carry <= 1 && d == ((if carry == 1 then (c + 1) % TWO32 else c) + l) % TWO32
    ensures d == (c + carry + l) % TWO32
  {
    if carry == 1 && c + 1 == TWO32 { ModAdds(l); }
  }

  lemma ModAdds(l: nat)
    ensures (TWO32 + l) % TWO32 == l % TWO32
  {
  }

  lemma Carried(c0: nat, c1: nat, bits: nat, l0: nat, l1: nat, carry: nat, d0: int, d1: nat, over: nat)
    requires bits == TWO32 * l1 + l0 && d0 == c0 + l0 - TWO32 * carry && c1 + carry + l1 == TWO32 * over + d1
    ensures c0 + TWO32 * c1 + bits == d0 + TWO32 * d1 + TWO64 * over
  {
  }

  lemma ModUnique(a: nat, r: nat, k: nat)
    requires a == r + TWO64 * k && r < TWO64
    ensures a % TWO64 == r
  {
  }

  lemma UsedSpace(c0: nat, c1: nat, n: nat)
    requires Counts(c0, c1, n)
    ensures c0 / 8 % BLOCK == n % BLOCK
  {
    CountIsLength(n);
    assert (c0 + TWO32 * c1) / 8 == c0 / 8 + 0x2000_0000 * c1;
    assert c0 / 8 + 0x2000_0000 * c1 == BLOCK * (0x80_0000 * c1) + c0 / 8;
    ModSame(c0 / 8, 0x80_0000 * c1);
  }

  /** SHA1_CTX. */
  class Context {
    var state: Hash
    var buffer: seq<Byte>
    var count0: nat
    var count1: nat
    ghost var msg: seq<Byte>

    ghost predicate Valid()
      reads this
    {
      Absorbed(Compress, H0, state, buffer, msg) && Counts(count0, count1, |msg|)
    }

    /** SHA1Init. */
    constructor ()
      ensures Valid() && msg == []
    {
      state, buffer, count0, count1, msg := H0, Zeros(BLOCK), 0, 0, [];
    }

    /** SHA1Update, for lengths at which the index arithmetic does not wrap around. */
    method Update(data: seq<Byte>)
      requires Valid() && |data| + 63 < TWO32
      modifies this
      ensures Valid() && msg == old(msg) + data
    {
      hide Compress, Absorbed, Counts;
      UsedSpace(count0, count1, |msg|);
      var j := count0 / 8 % BLOCK;
      Count(|data|);
      if j + |data| > 63 {
        var i := BLOCK - j;
        Fill(data[..i], j);
        while i + 63 < |data|
          invariant 0 <= i <= |data| && Absorbed(Compress, H0, state, buffer, msg) && |msg| % BLOCK == 0
          invariant msg == old(msg) + data[..i]
          invariant Counts(count0, count1, |old(msg)| + |data|)
        {
          OneBlock(data[i..i + BLOCK]);
          assert data[..i] + data[i..i + BLOCK] == data[..i + BLOCK];
          i := i + BLOCK;
        }
        LeftOvers(data[i..], 0);
        assert data[..i] + data[i..] == data;
      } else {
        LeftOvers(data, j);
      }
    }

    /** The count goes up by the length. */
    method Count(len: nat)
      requires Counts(count0, count1, |msg|) && len < TWO32
      modifies this`count0, this`count1
      ensures Counts(count0, count1, |msg| + len)
    {
      ghost var c0, c1 := count0, count1;
      var bits := 8 * len % TWO32;
      count0 := (count0 + bits) % TWO32;
      if count0 < bits {
        count1 := (count1 + 1) % TWO32;
      }
      count1 := (count1 + len / 0x2000_0000) % TWO32;
      CountsAdd(c0, c1, |msg|, len, count0, count1);
    }

    /** The buffer is filled up and transformed. */
    method Fill(d: seq<Byte>, j: nat)
      requires Absorbed(Compress, H0, state, buffer, msg) && j == |msg| % BLOCK && j + |d| == BLOCK
      modifies this`state, this`buffer, this`msg
      ensures Absorbed(Compress, H0, state, buffer, msg) && |msg| % BLOCK == 0 && msg == old(msg) + d
    {
      hide Compress;
      ghost var was := buffer;
      buffer := buffer[..j] + d;
      Filled(Compress, H0, state, was, msg, d, buffer);
      state := Transform(state, buffer);
      msg := msg + d;
    }

    /** A whole block straight from the data. */
    method OneBlock(d: seq<Byte>)
      requires Absorbed(Compress, H0, state, buffer, msg) && |msg| % BLOCK == 0 && |d| == BLOCK
      modifies this`state, this`msg
      ensures Absorbed(Compress, H0, state, buffer, msg) && |msg| % BLOCK == 0 && msg == old(msg) + d
    {
      hide Compress;
      assert buffer[..0] + d == d;
      Filled(Compress, H0, state, buffer, msg, d, buffer);
      state := Transform(state, d);
      msg := msg + d;
    }

    method LeftOvers(d: seq<Byte>, j: nat)
      requires Absorbed(Compress, H0, state, buffer, msg) && j == |msg| % BLOCK && j + |d| < BLOCK
      modifies this`buffer, this`msg
      ensures Absorbed(Compress, H0, state, buffer, msg) && msg == old(msg) + d
    {
      hide Compress;
      ghost var was := buffer;
      buffer := buffer[..j] + d + buffer[j + |d|..];
      assert buffer[..j + |d|] == was[..j] + d;
      Kept(Compress, H0, state, was, msg, d, buffer);
      msg := msg + d;
    }

    /** SHA1Final. */
    method Final() returns (digest: seq<Byte>)
      requires Valid()
      modifies this
      ensures digest == Sha1(old(msg))
      ensures state == Compress(Hash(0, 0, 0, 0, 0), Zeros(BLOCK)) && buffer == Zeros(BLOCK) && count0 == 0
      ensures count1 == 0
    {
      hide Compress, Absorbed, Counts, BigEndian;
      ghost var m := msg;
      var finalcount := CountBytes(count0, count1, |m|);
      Update([0x80]);
      ghost var z := 0;
      assert Zeros(0) == [] && m + [0x80] + [] == m + [0x80];
      UsedSpace(count0, count1, |msg|);
      while count0 / 8 % BLOCK != 56
        invariant Valid() && msg == m + [0x80] + Zeros(z) && z <= PadLen(|m|) && count0 / 8 % BLOCK == |msg| % BLOCK
        decreases PadLen(|m|) - z
      {
        PadMore(|m|, z);
        Update([0]);
        assert Zeros(z + 1) == Zeros(z) + [0];
        z := z + 1;
        UsedSpace(count0, count1, |msg|);
      }
      PadDone(|m|, z);
      Update(finalcount);
      assert msg == m + Padding(|m|);
      WholeMessage(state, buffer, msg);
      digest := Digest(state);
      state, buffer, count0, count1 := Hash(0, 0, 0, 0, 0), Zeros(BLOCK), 0, 0;
      state := Transform(state, buffer);
    }
  }

  /** What the shift by 24, 16, 8 or 0 bits divides by. */
  function Scale(i: nat): nat
  {
    match i % 4
    case 0 => 0x100_0000
    case 1 => 0x1_0000
    case 2 => 0x100
    case _ => 1
  }

  function CountByte(c0: nat, c1: nat, i: nat): Byte { ByteOf((if i >= 4 then c0 else c1) / Scale(i)) }

  /** finalcount: the count, the most significant byte first. */
  method CountBytes(c0: nat, c1: nat, ghost n: nat) returns (b: seq<Byte>)
    requires Counts(c0, c1, n)
    ensures b == BigEndian(8 * n % TWO64, 8)
  {
    hide BigEndian, CountByte;
    b := [];
    for i := 0 to 8
      invariant |b| == i && forall k :: 0 <= k < i ==> b[k] == CountByte(c0, c1, k)
    {
      b := b + [CountByte(c0, c1, i)];
    }
    EightBytes(c0, c1, b);
  }

  lemma EightBytes(c0: nat, c1: nat, b: seq<Byte>)
    requires |b| == 8 && c0 < TWO32 && forall k :: 0 <= k < 8 ==> b[k] == CountByte(c0, c1, k)
    ensures b == BigEndian(c0 + TWO32 * c1, 8)
  {
    hide ByteOf, BigEndian, Pow256;
    assert Pow256(4) == TWO32 by { Pow256Four(); }
    BigEndianSplit(c1, c0, 4, 4);
    FourBytes(c0);
    FourBytes(c1);
    assert b[..4] == BigEndian(c1, 4) && b[4..] == BigEndian(c0, 4);
    assert b == b[..4] + b[4..];
  }

  lemma Pow256Four()
    ensures Pow256(4) == TWO32
  {
    assert Pow256(1) == 256 && Pow256(2) == 65536 && Pow256(3) == 16777216;
  }

  lemma FourBytes(c: nat)
    ensures BigEndian(c, 4) == [ByteOf(c / 0x100_0000), ByteOf(c / 0x1_0000), ByteOf(c / 0x100), ByteOf(c / 1)]
  {
    hide ByteOf, BigEndian;
    Halves(c);
    LastByte(c, 4);
    LastByte(c / 256, 3);
    LastByte(c / 256 / 256, 2);
    LastByte(c / 256 / 256 / 256, 1);
    assert BigEndian(c / 256 / 256 / 256 / 256, 0) == [];
  }

  lemma LastByte(c: nat, k: nat)
    requires k > 0
    ensures BigEndian(c, k) == BigEndian(c / 256, k - 1) + [ByteOf(c)]
  {
    hide ByteOf;
  }

  lemma Halves(c: nat)
    ensures c / 256 / 256 == c / 0x1_0000 && c / 256 / 256 / 256 == c / 0x100_0000
  {
  }

  /** The loop of zeros stops after the padding, no sooner and no later. */
  lemma PadMore(n: nat, z: nat)
    requires z <= PadLen(n) && (n + 1 + z) % BLOCK != 56
    ensures z < PadLen(n)
  {
  }

  lemma PadDone(n: nat, z: nat)
    requires z <= PadLen(n) && (n + 1 + z) % BLOCK == 56
    ensures z == PadLen(n)
  {
  }

  lemma WholeMessage(state: Hash, buffer: seq<Byte>, msg: seq<Byte>)
    requires Absorbed(Compress, H0, state, buffer, msg) && |msg| % BLOCK == 0
    ensures state == Fold(Compress, H0, msg)
  {
    WholeOf(msg, msg, []);
  }

  /** A message in any number of pieces has the digest of the whole. */
  method HashChunks(chunks: seq<seq<Byte>>) returns (digest: seq<Byte>)
    requires forall i :: 0 <= i < |chunks| ==> |chunks[i]| + 63 < TWO32
    ensures digest == Sha1(Flatten(chunks))
  {
    hide Sha1, Absorbed, Counts, Compress;
    var ctx := new Context();
    for i := 0 to |chunks|
      invariant ctx.Valid() && ctx.msg == Flatten(chunks[..i])
      invariant fresh(ctx)
    {
      ctx.Update(chunks[i]);
      assert chunks[..i + 1][..i] == chunks[..i];
    }
    assert chunks[..|chunks|] == chunks;
    digest := ctx.Final();
  }
}

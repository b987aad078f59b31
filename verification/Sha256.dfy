/** SHA-256: the hash function (sections 4.1.2, 4.2.2, 5.3.3 and 6.2 of FIPS 180-4) and the
    streaming implementation of sha2.c. */
module Sha256 {
  import opened Base
  import opened Sha

  const SHORT_BLOCK := BLOCK - 8

  /** The constants of the rounds, in two halves. */
  function K(t: nat): Word requires t < 64 { if t < 32 then K_FIRST[t] else K_LAST[t - 32] }

  const K_FIRST: seq<Word> := [
    0x428a2f98, 0x71374491, 0xb5c0fbcf, 0xe9b5dba5, 0x3956c25b, 0x59f111f1, 0x923f82a4, 0xab1c5ed5,
    0xd807aa98, 0x12835b01, 0x243185be, 0x550c7dc3, 0x72be5d74, 0x80deb1fe, 0x9bdc06a7, 0xc19bf174,
    0xe49b69c1, 0xefbe4786, 0x0fc19dc6, 0x240ca1cc, 0x2de92c6f, 0x4a7484aa, 0x5cb0a9dc, 0x76f988da,
    0x983e5152, 0xa831c66d, 0xb00327c8, 0xbf597fc7, 0xc6e00bf3, 0xd5a79147, 0x06ca6351, 0x14292967
  ]

  const K_LAST: seq<Word> := [
    0x27b70a85, 0x2e1b2138, 0x4d2c6dfc, 0x53380d13, 0x650a7354, 0x766a0abb, 0x81c2c92e, 0x92722c85,
    0xa2bfe8a1, 0xa81a664b, 0xc24b8b70, 0xc76c51a3, 0xd192e819, 0xd6990624, 0xf40e3585, 0x106aa070,
    0x19a4c116, 0x1e376c08, 0x2748774c, 0x34b0bcb5, 0x391c0cb3, 0x4ed8aa4a, 0x5b9cca4f, 0x682e6ff3,
    0x748f82ee, 0x78a5636f, 0x84c87814, 0x8cc70208, 0x90befffa, 0xa4506ceb, 0xbef9a3f7, 0xc67178f2
  ]

  const H0 := Hash(0x6a09e667, 0xbb67ae85, 0x3c6ef372, 0xa54ff53a, 0x510e527f, 0x9b05688c, 0x1f83d9ab, 0x5be0cd19)

  /** The eight words of a hash value, or the working variables. */
  datatype Hash = Hash(a: Word, b: Word, c: Word, d: Word, e: Word, f: Word, g: Word, h: Word)

  function ShiftR(b: nat, x: Word): Word requires b <= 32 { x >> b }

  function RotR(b: nat, x: Word): Word requires b <= 32 { (x >> b) | (x << (32 - b)) }

  function Sigma0(x: Word): Word { RotR(2, x) ^ RotR(13, x) ^ RotR(22, x) }

  function Sigma1(x: Word): Word { RotR(6, x) ^ RotR(11, x) ^ RotR(25, x) }

  function LowerSigma0(x: Word): Word { RotR(7, x) ^ RotR(18, x) ^ ShiftR(3, x) }

  function LowerSigma1(x: Word): Word { RotR(17, x) ^ RotR(19, x) ^ ShiftR(10, x) }

  /** The message schedule. */
  function Schedule(block: seq<Byte>, t: nat): Word
    requires |block| == BLOCK
  {
    if t < 16 then WordAt(block, t)
    else Mix(Schedule(block, t - 2), Schedule(block, t - 7), Schedule(block, t - 15), Schedule(block, t - 16))
  }

  function Mix(w2: Word, w7: Word, w15: Word, w16: Word): Word
  {
    Add(Add(Add(LowerSigma1(w2), w7), LowerSigma0(w15)), w16)
  }

  /** One round, with the constant and the word of the schedule. */
  function Round(s: Hash, k: Word, w: Word): Hash
  {
    var t1 := Add(Add(Add(Add(s.h, Sigma1(s.e)), Ch(s.e, s.f, s.g)), k), w);
    var t2 := Add(Sigma0(s.a), Maj(s.a, s.b, s.c));
    Hash(Add(t1, t2), s.a, s.b, s.c, Add(s.d, t1), s.e, s.f, s.g)
  }

  /** The working variables after `t` rounds. */
  function Rounds(s: Hash, block: seq<Byte>, t: nat): Hash
    requires |block| == BLOCK && t <= 64
  {
    if t == 0 then s else Round(Rounds(s, block, t - 1), K(t - 1), Schedule(block, t - 1))
  }

  function Sum(s: Hash, r: Hash): Hash
  {
    Hash(Add(s.a, r.a), Add(s.b, r.b), Add(s.c, r.c), Add(s.d, r.d), Add(s.e, r.e), Add(s.f, r.f), Add(s.g, r.g),
      Add(s.h, r.h))
  }

  function Compress(s: Hash, block: seq<Byte>): Hash
  {
    if |block| == BLOCK then Sum(s, Rounds(s, block, 64)) else s
  }

  function WordsOf(s: Hash): seq<Word> { [s.a, s.b, s.c, s.d, s.e, s.f, s.g, s.h] }

  function AllBytes(ws: seq<Word>): seq<Byte>
  {
    if ws == [] then [] else AllBytes(ws[..|ws| - 1]) + BytesOf(ws[|ws| - 1])
  }

  function Digest(s: Hash): seq<Byte> { AllBytes(WordsOf(s)) }

  /** SHA-256 of a message. */
  function Sha256(m: seq<Byte>): seq<Byte>
  {
    Digest(Fold(Compress, H0, m + Padding(|m|)))
  }

  /** REVERSE32. */
  function Reverse32(w: Word): Word
  {
    var tmp := (w >> 16) | (w << 16);
    ((tmp & 0xff00ff00) >> 8) | ((tmp & 0x00ff00ff) << 8)
  }

  /** Reading a word in the order of the machine and reversing it gives the word of the block. */
  lemma ReversedLoad(block: seq<Byte>, t: nat)
    requires 4 * t + 4 <= |block|
    ensures Reverse32(LoadLE(block[4 * t], block[4 * t + 1], block[4 * t + 2], block[4 * t + 3])) == WordAt(block, t)
  {
  }

  /** A word as a little-endian machine stores it. */
  function StoreLE(w: Word): seq<Byte>
  {
    [(w & 0xff) as bv8, ((w >> 8) & 0xff) as bv8, ((w >> 16) & 0xff) as bv8, (w >> 24) as bv8]
  }

  lemma ReversedStore(w: Word)
    ensures StoreLE(Reverse32(w)) == BytesOf(w)
  {
  }

  /** The word `i` of a buffer, as the machine reads it. */
  function GetWord(buffer: seq<Byte>, i: nat): Word
    requires 4 * i + 4 <= |buffer|
  {
    LoadLE(buffer[4 * i], buffer[4 * i + 1], buffer[4 * i + 2], buffer[4 * i + 3])
  }

  function PutWord(buffer: seq<Byte>, i: nat, w: Word): (b: seq<Byte>)
    requires 4 * i + 4 <= |buffer|
    ensures |b| == |buffer|
  {
    buffer[..4 * i] + StoreLE(w) + buffer[4 * i + 4..]
  }

  lemma LoadStored(w: Word)
    ensures var b := StoreLE(w); LoadLE(b[0], b[1], b[2], b[3]) == w
  {
  }

  /** Storing a word changes that word and no other. */
  lemma WordPut(buffer: seq<Byte>, i: nat, w: Word, j: nat)
    requires 4 * i + 4 <= |buffer| && 4 * j + 4 <= |buffer|
    ensures GetWord(PutWord(buffer, i, w), j) == if j == i then w else GetWord(buffer, j)
    ensures j != i ==> PutWord(buffer, i, w)[4 * j..4 * j + 4] == buffer[4 * j..4 * j + 4]
  {
    hide LoadLE, StoreLE;
    LoadStored(w);
    var b, x := PutWord(buffer, i, w), StoreLE(w);
    assert |x| == 4 by { StoreSize(w); }
    if j == i {
      assert b[4 * j] == x[0] && b[4 * j + 1] == x[1] && b[4 * j + 2] == x[2] && b[4 * j + 3] == x[3];
    } else {
      assert forall k :: 0 <= k < |b| && (k < 4 * i || k >= 4 * i + 4) ==> b[k] == buffer[k];
    }
  }

  lemma StoreSize(w: Word)
    ensures |StoreLE(w)| == 4
  {
  }

  /** The sixteen words in the buffer are the last ones of the schedule before `t`. */
  ghost predicate Window(w: seq<Byte>, block: seq<Byte>, t: nat)
    requires |block| == BLOCK
  {
    |w| == BLOCK && forall i :: 0 <= i < t && t - 16 <= i ==> GetWord(w, i % 16) == Schedule(block, i)
  }

  lemma WindowAt(w: seq<Byte>, block: seq<Byte>, t: nat, i: nat)
    requires |block| == BLOCK && Window(w, block, t) && i < t <= i + 16
    ensures GetWord(w, i % 16) == Schedule(block, i)
  {
  }

  lemma WindowNext(w: seq<Byte>, block: seq<Byte>, t: nat, v: Word)
    requires |block| == BLOCK && Window(w, block, t) && v == Schedule(block, t)
    ensures Window(PutWord(w, t % 16, v), block, t + 1)
  {
    hide PutWord, GetWord, Schedule;
    forall i | 0 <= i < t + 1 && t + 1 - 16 <= i ensures GetWord(PutWord(w, t % 16, v), i % 16) == Schedule(block, i) {
      WordPut(w, t % 16, v, i % 16);
      if i < t {
        ModDiffers(i, t);
        WindowAt(w, block, t, i);
      }
    }
  }

  /** The expansion in place is that of the schedule. */
  lemma Expand(w: seq<Byte>, block: seq<Byte>, t: nat)
    requires |block| == BLOCK && Window(w, block, t) && 16 <= t
    ensures Mix(GetWord(w, (t + 14) % 16), GetWord(w, (t + 9) % 16), GetWord(w, (t + 1) % 16), GetWord(w, t % 16))
      == Schedule(block, t)
  {
    hide Mix, WordAt, GetWord, Window;
    WindowAt(w, block, t, t - 16);
    WindowAt(w, block, t, t - 2);
    WindowAt(w, block, t, t - 7);
    WindowAt(w, block, t, t - 15);
    Back(t, 16);
    Back(t, 2);
    Back(t, 7);
    Back(t, 15);
  }

  lemma StartWindow(buffer: seq<Byte>, data: seq<Byte>)
    requires |buffer| == BLOCK && |data| == BLOCK
    ensures Window(buffer, data, 0) && (buffer == data ==> Unread(buffer, data, 0))
  {
  }

  lemma WordUnread(buffer: seq<Byte>, block: seq<Byte>, t: nat)
    requires Unread(buffer, block, t) && t < 16
    ensures GetWord(buffer, t) == GetWord(block, t)
  {
  }

  lemma ReversedWord(block: seq<Byte>, t: nat)
    requires 4 * t + 4 <= |block|
    ensures Reverse32(GetWord(block, t)) == WordAt(block, t)
  {
    hide Reverse32, LoadLE, WordAt;
    ReversedLoad(block, t);
  }

  /** The words not yet overwritten are those of the block. */
  ghost predicate Unread(buffer: seq<Byte>, block: seq<Byte>, t: nat)
  {
    |buffer| == |block| == BLOCK && forall k :: 4 * t <= k < BLOCK ==> buffer[k] == block[k]
  }

  lemma UnreadNext(buffer: seq<Byte>, block: seq<Byte>, t: nat, v: Word)
    requires Unread(buffer, block, t) && t < 16
    ensures Unread(PutWord(buffer, t, v), block, t + 1)
  {
    StoreSize(v);
  }

  ghost predicate Holds(state: Hash, buffer: seq<Byte>, bitcount: nat, msg: seq<Byte>)
  {
    Absorbed(Compress, H0, state, buffer, msg) && bitcount == 8 * |msg| % TWO64
  }

  /** The space used in the buffer. */
  function Used(bitcount: nat): nat { bitcount / 8 % BLOCK }

  lemma UsedSpace(state: Hash, buffer: seq<Byte>, bitcount: nat, msg: seq<Byte>)
    requires Holds(state, buffer, bitcount, msg)
    ensures |buffer| == BLOCK && Used(bitcount) == |msg| % BLOCK
  {
    CountIsLength(|msg|);
  }

  /** SHA256_CTX. */
  class Context {
    var state: Hash
    var buffer: seq<Byte>
    var bitcount: nat
    ghost var msg: seq<Byte>

    ghost predicate Valid()
      reads this
    {
      Holds(state, buffer, bitcount, msg)
    }

    /** SHA256_Init. */
    constructor ()
      ensures Valid() && msg == []
    {
      state, buffer, bitcount, msg := H0, Zeros(BLOCK), 0, [];
    }

    /** SHA256_Transform. The schedule is kept in the buffer, sixteen words at a time; the data may
        be in the buffer as well (`own`). */
    method Transform(data: seq<Byte>, own: bool)
      requires |data| == BLOCK && |buffer| == BLOCK && (own ==> buffer == data)
      modifies this`state, this`buffer
      ensures state == Compress(old(state), data) && |buffer| == BLOCK
    {
      hide K, Mix, WordAt, Reverse32, LoadLE, Round, Sum, GetWord, PutWord, Unread, Window;
      var s := state;
      var j := 0;
      StartWindow(buffer, data);
      while j < 16
        invariant 0 <= j <= 16 && |buffer| == BLOCK && Window(buffer, data, j) && s == Rounds(state, data, j)
        invariant state == old(state) && (own ==> Unread(buffer, data, j))
      {
        var w := Reverse32(GetWord(if own then buffer else data, j));
        assert w == WordAt(data, j) by { if own { WordUnread(buffer, data, j); } ReversedWord(data, j); }
        WindowNext(buffer, data, j, w);
        if own { UnreadNext(buffer, data, j, w); }
        WordPut(buffer, j, w, j);
        buffer := PutWord(buffer, j, w);
        s := OneRound(s, K(j), GetWord(buffer, j));
        j := j + 1;
      }
      while j < 64
        invariant 16 <= j <= 64 && |buffer| == BLOCK && Window(buffer, data, j) && s == Rounds(state, data, j)
        invariant state == old(state)
      {
        Expand(buffer, data, j);
        WindowNext(buffer, data, j, Schedule(data, j));
        var v := Expanded(GetWord(buffer, (j + 14) % 16), GetWord(buffer, (j + 9) % 16), GetWord(buffer, (j + 1) % 16),
          GetWord(buffer, j % 16));
        WordPut(buffer, j % 16, v, j % 16);
        buffer := PutWord(buffer, j % 16, v);
        s := OneRound(s, K(j), GetWord(buffer, j % 16));
        j := j + 1;
      }
      state := Sum(state, s);
    }

    /** The message block expansion. */
    static method Expanded(w14: Word, w9: Word, w1: Word, w0: Word) returns (v: Word)
      ensures v == Mix(w14, w9, w1, w0)
    {
      hide LowerSigma0, LowerSigma1, Add;
      var s0 := LowerSigma0(w1);
      var s1 := LowerSigma1(w14);
      AddCommutes(w0, Add(Add(s1, w9), s0));
      v := Add(w0, Add(Add(s1, w9), s0));
    }

    /** The compression function on the working variables. */
    static method OneRound(s: Hash, k: Word, w: Word) returns (r: Hash)
      ensures r == Round(s, k, w)
    {
      hide Sigma0, Sigma1, Ch, Maj, Add;
      var a, b, c, d, e, f, g, h := s.a, s.b, s.c, s.d, s.e, s.f, s.g, s.h;
      var t1 := Add(Add(Add(Add(h, Sigma1(e)), Ch(e, f, g)), k), w);
      var t2 := Add(Sigma0(a), Maj(a, b, c));
      h := g;
      g := f;
      f := e;
      e := Add(d, t1);
      d := c;
      c := b;
      b := a;
      a := Add(t1, t2);
      r := Hash(a, b, c, d, e, f, g, h);
    }

    /** SHA256_Update. */
    method Update(data: seq<Byte>)
      requires Valid()
      modifies this
      ensures Valid() && msg == old(msg) + data
    {
      hide Compress, Absorbed;
      if |data| == 0 {
        assert msg + data == msg;
        return;
      }
      UsedSpace(state, buffer, bitcount, msg);
      var usedspace := Used(bitcount);
      var i := 0;
      if usedspace > 0 {
        var freespace := BLOCK - usedspace;
        if |data| >= freespace {
          i := freespace;
          Filled(Compress, H0, state, buffer, msg, data[..freespace], Zeros(BLOCK));
          CountAdds(|msg|, freespace);
          buffer := buffer[..usedspace] + data[..freespace];
          bitcount := (bitcount + 8 * freespace) % TWO64;
          Transform(buffer, true);
          FullSame(state, Zeros(BLOCK), buffer, bitcount, msg + data[..freespace]);
          msg := msg + data[..freespace];
        } else {
          ghost var was := buffer;
          buffer := buffer[..usedspace] + data + buffer[usedspace + |data|..];
          assert buffer[..usedspace + |data|] == was[..usedspace] + data;
          Kept(Compress, H0, state, was, msg, data, buffer);
          CountAdds(|msg|, |data|);
          bitcount := (bitcount + 8 * |data|) % TWO64;
          msg := msg + data;
          return;
        }
      }
      assert msg == old(msg) + data[..i];
      Blocks(data, i, old(msg));
    }

    /** The whole blocks of the data, from `i` on, and the left-overs. */
    method Blocks(data: seq<Byte>, i0: nat, ghost before: seq<Byte>)
      requires Valid() && i0 <= |data| && |msg| % BLOCK == 0 && msg == before + data[..i0]
      modifies this
      ensures Valid() && msg == before + data
    {
      hide Holds;
      var i := i0;
      while |data| - i >= BLOCK
        invariant 0 <= i <= |data| && Valid() && |msg| % BLOCK == 0 && msg == before + data[..i]
      {
        OneBlock(data[i..i + BLOCK]);
        assert data[..i] + data[i..i + BLOCK] == data[..i + BLOCK];
        i := i + BLOCK;
      }
      if |data| - i > 0 {
        LeftOvers(data[i..]);
        assert data[..i] + data[i..] == data;
      } else {
        assert data[..i] == data;
      }
    }

    method OneBlock(d: seq<Byte>)
      requires Valid() && |msg| % BLOCK == 0 && |d| == BLOCK
      modifies this
      ensures Valid() && |msg| % BLOCK == 0 && msg == old(msg) + d
    {
      hide Compress, Absorbed;
      UsedSpace(state, buffer, bitcount, msg);
      assert buffer[..0] + d == d;
      Filled(Compress, H0, state, buffer, msg, d, Zeros(BLOCK));
      CountAdds(|msg|, BLOCK);
      Transform(d, false);
      bitcount := (bitcount + 8 * BLOCK) % TWO64;
      msg := msg + d;
      FullSame(state, Zeros(BLOCK), buffer, bitcount, msg);
    }

    /** SHA256_Final. */
    method Final() returns (digest: seq<Byte>)
      requires Valid()
      modifies this
      ensures digest == Sha256(old(msg))
      ensures state == Hash(0, 0, 0, 0, 0, 0, 0, 0) && buffer == Zeros(BLOCK) && bitcount == 0
    {
      hide Holds, Compress, Padding, Fold;
      Finish();
      digest := HostDigest(state);
      state, buffer, bitcount := Hash(0, 0, 0, 0, 0, 0, 0, 0), Zeros(BLOCK), 0;
    }

    /** The padding and the last one or two transforms. */
    method Finish()
      requires Valid()
      modifies this`state, this`buffer
      ensures state == Fold(Compress, H0, msg + Padding(|msg|))
    {
      hide Compress, Padding, Fold, BigEndian, Whole, Rest;
      UsedSpace(state, buffer, bitcount, msg);
      var usedspace := Used(bitcount);
      ghost var r, h := buffer[..usedspace], state;
      if usedspace > 0 {
        buffer := buffer[usedspace := 0x80];
        usedspace := usedspace + 1;
        if usedspace <= SHORT_BLOCK {
          buffer := buffer[..usedspace] + Zeros(SHORT_BLOCK - usedspace) + buffer[SHORT_BLOCK..];
        } else {
          if usedspace < BLOCK {
            buffer := buffer[..usedspace] + Zeros(BLOCK - usedspace);
          }
          assert buffer == BeforeLast(r);
          Transform(buffer, true);
          buffer := Zeros(SHORT_BLOCK) + buffer[SHORT_BLOCK..];
        }
      } else {
        buffer := Zeros(SHORT_BLOCK) + buffer[SHORT_BLOCK..];
        buffer := buffer[0 := 0x80];
      }
      buffer := buffer[..SHORT_BLOCK] + BigEndian(bitcount, 8);
      assert buffer == LastBlock(r, bitcount);
      Transform(buffer, true);
      FinalState(h, r, bitcount, msg, state);
    }

    /** The words of the state, stored with the most significant byte first. */
    static method HostDigest(s: Hash) returns (digest: seq<Byte>)
      ensures digest == Digest(s)
    {
      hide BytesOf, StoreLE, Reverse32;
      digest := [];
      var words := WordsOf(s);
      for j := 0 to 8
        invariant digest == AllBytes(words[..j])
      {
        ReversedStore(words[j]);
        digest := digest + StoreLE(Reverse32(words[j]));
        AllBytesNext(words, j);
      }
      assert words[..8] == words;
    }

    method LeftOvers(d: seq<Byte>)
      requires Valid() && |msg| % BLOCK == 0 && |d| < BLOCK
      modifies this
      ensures Valid() && msg == old(msg) + d
    {
      hide Compress, Absorbed;
      UsedSpace(state, buffer, bitcount, msg);
      ghost var was := buffer;
      buffer := d + buffer[|d|..];
      assert buffer[..|d|] == was[..0] + d;
      Kept(Compress, H0, state, was, msg, d, buffer);
      CountAdds(|msg|, |d|);
      bitcount := (bitcount + 8 * |d|) % TWO64;
      msg := msg + d;
    }
  }

  lemma AllBytesNext(ws: seq<Word>, j: nat)
    requires j < |ws|
    ensures AllBytes(ws[..j + 1]) == AllBytes(ws[..j]) + BytesOf(ws[j])
  {
    assert ws[..j + 1][..j] == ws[..j];
  }

  /** The padding in the last one or two blocks. */
  function LastBlock(r: seq<Byte>, bitcount: nat): (b: seq<Byte>)
    requires |r| < BLOCK
    ensures |b| == BLOCK
  {
    (if |r| < SHORT_BLOCK then r + [0x80] + Zeros(SHORT_BLOCK - 1 - |r|) else Zeros(SHORT_BLOCK))
      + BigEndian(bitcount, 8)
  }

  function BeforeLast(r: seq<Byte>): (b: seq<Byte>)
    requires |r| < BLOCK
    ensures |b| == if |r| < SHORT_BLOCK then 0 else BLOCK
  {
    if |r| < SHORT_BLOCK then [] else r + [0x80] + Zeros(BLOCK - 1 - |r|)
  }

  lemma PadSplit(r: seq<Byte>, x: Byte, z1: nat, z2: nat, c: seq<Byte>)
    ensures r + ([x] + Zeros(z1 + z2) + c) == (r + [x] + Zeros(z1)) + (Zeros(z2) + c)
  {
    assert Zeros(z1 + z2) == Zeros(z1) + Zeros(z2);
  }

  lemma PaddedEnd(m: seq<Byte>)
    ensures m + Padding(|m|) == Whole(m) + (BeforeLast(Rest(m)) + LastBlock(Rest(m), 8 * |m| % TWO64))
  {
    hide BigEndian, Zeros, Whole, Rest;
    var n := |m|;
    var r, c := Rest(m), BigEndian(8 * n % TWO64, 8);
    assert m + Padding(n) == Whole(m) + (r + Padding(n));
    if |r| < SHORT_BLOCK {
      assert PadLen(n) == SHORT_BLOCK - 1 - |r|;
      PadSplit(r, 0x80, PadLen(n), 0, c);
      assert Zeros(0) + c == c && [] + LastBlock(r, 8 * n % TWO64) == LastBlock(r, 8 * n % TWO64);
    } else {
      assert PadLen(n) == BLOCK - 1 - |r| + SHORT_BLOCK;
      PadSplit(r, 0x80, BLOCK - 1 - |r|, SHORT_BLOCK, c);
    }
  }

  /** Compressing the last blocks gives the hash of the padded message. */
  lemma FinalState(h: Hash, r: seq<Byte>, bitcount: nat, m: seq<Byte>, s: Hash)
    requires h == Fold(Compress, H0, Whole(m)) && r == Rest(m) && bitcount == 8 * |m| % TWO64
    requires s == Compress(if |r| < SHORT_BLOCK then h else Compress(h, BeforeLast(r)), LastBlock(r, bitcount))
    ensures s == Fold(Compress, H0, m + Padding(|m|))
  {
    hide Compress, BigEndian, Zeros, Whole, Rest, Padding, LastBlock, BeforeLast, Fold;
    PaddedEnd(m);
    var b, l := BeforeLast(r), LastBlock(r, bitcount);
    FoldConcat(Compress, H0, Whole(m), b + l);
    FoldConcat(Compress, h, b, l);
    FoldOne(Compress, Fold(Compress, h, b), l);
    if |r| < SHORT_BLOCK { FoldNone(Compress, h, b); } else { FoldOne(Compress, h, b); }
  }

  /** With no rest, what is in the buffer does not matter. */
  lemma FullSame(state: Hash, buffer: seq<Byte>, buffer': seq<Byte>, bitcount: nat, msg: seq<Byte>)
    requires Holds(state, buffer, bitcount, msg) && |msg| % BLOCK == 0 && |buffer'| == BLOCK
    ensures Holds(state, buffer', bitcount, msg)
  {
  }

  /** A message in any number of pieces has the digest of the whole. */
  method HashChunks(chunks: seq<seq<Byte>>) returns (digest: seq<Byte>)
    ensures digest == Sha256(Flatten(chunks))
  {
    hide Sha256, Holds, Compress;
    var ctx := new Context();
    for i := 0 to |chunks|
      invariant ctx.Valid() && ctx.msg == Flatten(chunks[..i])
      invariant fresh(ctx)
    {
      ctx.Update(chunks[i]);
      assert chunks[..i + 1][..i] == chunks[..i];
    }
    assert chunks[..|chunks|] == chunks;
    digest := ctx.Final();
  }
}

/** What SHA-1 and SHA-256 share: padding, and messages taken block by block (FIPS 180-4). */
module Sha {
  import opened Base

  type Byte = bv8

  type Word = bv32

  const BLOCK := 64

  function Zeros(n: nat): (z: seq<Byte>)
    ensures |z| == n && forall i :: 0 <= i < n ==> z[i] == 0
  {
    seq(n, _ => 0)
  }

  function ByteOf(n: nat): Byte { (n % 256) as bv8 }

  /** A number as `len` bytes, the most significant first. */
  function BigEndian(n: nat, len: nat): (b: seq<Byte>)
    ensures |b| == len
  {
    if len == 0 then [] else BigEndian(n / 256, len - 1) + [ByteOf(n)]
  }

  /** The number of zero bytes after the bit 1: up to eight bytes before the end of a block. */
  function PadLen(n: nat): (z: nat)
    ensures (n + 1 + z) % BLOCK == 56 && z < BLOCK
  {
    (119 - n % BLOCK) % BLOCK
  }

  /** Section 5.1.1 of FIPS 180-4. */
  function Padding(n: nat): (p: seq<Byte>)
    ensures (n + |p|) % BLOCK == 0
  {
    PadEnds(n + 1 + PadLen(n));
    [0x80] + Zeros(PadLen(n)) + BigEndian(8 * n % TWO64, 8)
  }

  lemma PadEnds(n: nat)
    requires n % BLOCK == 56
    ensures (n + 8) % BLOCK == 0
  {
  }

  /** Addition modulo 2^32. */
  function Add(x: Word, y: Word): Word { x + y }

  lemma AddCommutes(x: Word, y: Word)
    ensures Add(x, y) == Add(y, x)
  {
  }

  function Ch(x: Word, y: Word, z: Word): Word { (x & y) ^ (!x & z) }

  function Maj(x: Word, y: Word, z: Word): Word { (x & y) ^ (x & z) ^ (y & z) }

  /** Word `t` of a block: its bytes, the most significant first. */
  function WordAt(block: seq<Byte>, t: nat): Word
    requires 4 * t + 4 <= |block|
  {
    (block[4 * t] as bv32 << 24) | (block[4 * t + 1] as bv32 << 16) | (block[4 * t + 2] as bv32 << 8) | (block[4 * t
      + 3] as bv32)
  }

  function BytesOf(w: Word): seq<Byte>
  {
    [(w >> 24) as bv8, ((w >> 16) & 0xff) as bv8, ((w >> 8) & 0xff) as bv8, (w & 0xff) as bv8]
  }

  /** Four bytes as a little-endian machine reads them. */
  function LoadLE(b0: Byte, b1: Byte, b2: Byte, b3: Byte): Word
  {
    (b3 as bv32 << 24) | (b2 as bv32 << 16) | (b1 as bv32 << 8) | (b0 as bv32)
  }

  /** In a window of 16 words, `k` words back is `16 - k` words on. */
  lemma Back(t: nat, k: nat)
    requires k <= 16 <= t
    ensures (t - k) % 16 == (t + 16 - k) % 16
  {
  }

  lemma ModDiffers(i: nat, t: nat)
    requires i < t < i + 16
    ensures i % 16 != t % 16
  {
  }

  /** The hash of the blocks of a message, by the compression function `f`. */
  function Fold<H>(f: (H, seq<Byte>) -> H, h: H, m: seq<Byte>): H
    decreases |m|
  {
    if |m| < BLOCK then h else Fold(f, f(h, m[..BLOCK]), m[BLOCK..])
  }

  lemma {:induction false} FoldConcat<H>(f: (H, seq<Byte>) -> H, h: H, a: seq<Byte>, b: seq<Byte>)
    requires |a| % BLOCK == 0
    ensures Fold(f, h, a + b) == Fold(f, Fold(f, h, a), b)
    decreases |a|
  {
    if |a| < BLOCK {
      assert a + b == b;
    } else {
      assert (a + b)[..BLOCK] == a[..BLOCK] && (a + b)[BLOCK..] == a[BLOCK..] + b;
      FoldConcat(f, f(h, a[..BLOCK]), a[BLOCK..], b);
    }
  }

  lemma FoldNone<H>(f: (H, seq<Byte>) -> H, h: H, a: seq<Byte>)
    requires |a| == 0
    ensures Fold(f, h, a) == h
  {
  }

  lemma FoldOne<H>(f: (H, seq<Byte>) -> H, h: H, a: seq<Byte>)
    requires |a| == BLOCK
    ensures Fold(f, h, a) == f(h, a)
  {
    assert a[..BLOCK] == a;
  }

  /** The part of a message that has been hashed, and the part that waits for more. */
  function Whole(m: seq<Byte>): (w: seq<Byte>)
    ensures |w| % BLOCK == 0 && |w| <= |m| < |w| + BLOCK && w == m[..|w|]
  {
    m[..|m| / BLOCK * BLOCK]
  }

  function Rest(m: seq<Byte>): (r: seq<Byte>)
    ensures |r| == |m| % BLOCK && Whole(m) + r == m
  {
    m[|m| / BLOCK * BLOCK..]
  }

  /** A message that starts with whole blocks. */
  lemma WholeOf(m: seq<Byte>, w: seq<Byte>, r: seq<Byte>)
    requires m == w + r && |w| % BLOCK == 0 && |r| < BLOCK
    ensures Whole(m) == w && Rest(m) == r
  {
  }

  /** A hash and a buffer hold the message so far: its whole blocks are in the hash, the rest is in
      the buffer. */
  ghost predicate Absorbed<H(!new)>(f: (H, seq<Byte>) -> H, h0: H, h: H, buffer: seq<Byte>, msg: seq<Byte>)
  {
    |buffer| == BLOCK && h == Fold(f, h0, Whole(msg)) && buffer[..|msg| % BLOCK] == Rest(msg)
  }

  /** More bytes complete a block, which is then compressed; the buffer is free. */
  lemma Filled<H(!new)>(f: (H, seq<Byte>) -> H, h0: H, h: H, buffer: seq<Byte>, msg: seq<Byte>, d: seq<Byte>,
      buffer': seq<Byte>)
    requires Absorbed(f, h0, h, buffer, msg) && |msg| % BLOCK + |d| == BLOCK && |buffer'| == BLOCK
    ensures Absorbed(f, h0, f(h, buffer[..|msg| % BLOCK] + d), buffer', msg + d) && |msg + d| % BLOCK == 0
  {
    var w, r := Whole(msg), Rest(msg);
    assert msg + d == w + (r + d);
    WholeOf(msg + d, msg + d, []);
    FoldConcat(f, h0, w, r + d);
    FoldOne(f, h, r + d);
  }

  /** More bytes that do not complete a block. */
  lemma Kept<H(!new)>(f: (H, seq<Byte>) -> H, h0: H, h: H, buffer: seq<Byte>, msg: seq<Byte>, d: seq<Byte>,
      buffer': seq<Byte>)
    requires Absorbed(f, h0, h, buffer, msg) && |msg| % BLOCK + |d| < BLOCK && |buffer'| == BLOCK
    requires buffer'[..|msg| % BLOCK + |d|] == buffer[..|msg| % BLOCK] + d
    ensures Absorbed(f, h0, h, buffer', msg + d)
  {
    assert msg + d == Whole(msg) + (Rest(msg) + d);
    WholeOf(msg + d, Whole(msg), Rest(msg) + d);
    assert |msg + d| % BLOCK == |Rest(msg) + d|;
  }

  /** A count of bits modulo 2^64 tells how much of a block there is. */
  lemma CountIsLength(n: nat)
    ensures 8 * n % TWO64 / 8 % BLOCK == n % BLOCK
  {
    var q := 8 * n / TWO64;
    assert 8 * n == q * TWO64 + 8 * n % TWO64;
    assert 8 * n % TWO64 == 8 * (n - q * 0x2000_0000_0000_0000);
    assert n == BLOCK * (q * 0x80_0000_0000_0000) + (n - q * 0x2000_0000_0000_0000);
    ModSame(n - q * 0x2000_0000_0000_0000, q * 0x80_0000_0000_0000);
  }

  lemma ModSame(a: nat, k: nat)
    ensures (BLOCK * k + a) % BLOCK == a % BLOCK
  {
  }

  lemma CountAdds(n: nat, d: nat)
    ensures (8 * n % TWO64 + 8 * d) % TWO64 == 8 * (n + d) % TWO64
  {
  }

  function Flatten(chunks: seq<seq<Byte>>): seq<Byte>
  {
    if chunks == [] then [] else Flatten(chunks[..|chunks| - 1]) + chunks[|chunks| - 1]
  }

  /** The bytes of a number in two parts. */
  lemma {:induction false} BigEndianSplit(hi: nat, lo: nat, j: nat, k: nat)
    requires lo < Pow256(k)
    ensures BigEndian(hi * Pow256(k) + lo, j + k) == BigEndian(hi, j) + BigEndian(lo, k)
  {
    if k == 0 {
      assert BigEndian(hi, j) + [] == BigEndian(hi, j);
    } else {
      var n := hi * Pow256(k) + lo;
      Shifted(hi, k);
      Divided(hi * Pow256(k - 1), lo);
      BigEndianSplit(hi, lo / 256, j, k - 1);
      assert BigEndian(n, j + k) == BigEndian(n / 256, j + k - 1) + [ByteOf(n)];
    }
  }

  lemma Shifted(hi: nat, k: nat)
    requires k > 0
    ensures hi * Pow256(k) == 256 * (hi * Pow256(k - 1))
  {
    assert Pow256(k) == 256 * Pow256(k - 1);
  }

  lemma Divided(a: nat, b: nat)
    ensures (256 * a + b) / 256 == a + b / 256 && (256 * a + b) % 256 == b % 256
  {
  }
}

/** The constants of SHA-1 and SHA-256 are what FIPS 180-4 says they are: the first bits of square and
    cube roots of the first primes; and the functions on words, bit by bit. */
module ShaWords {
  import opened Base
  import opened Sha
  import opened WordBits
  import H1 = Sha1
  import H2 = Sha256

  ghost predicate IsPrime(n: nat) { n >= 2 && forall d :: 2 <= d < n ==> n % d != 0 }

  /** How many primes there are below `n`. */
  ghost function PrimesBelow(n: nat): nat { if n == 0 then 0 else PrimesBelow(n - 1) + if IsPrime(n - 1) then 1 else 0 }

  /** `p` is the prime with `i` primes before it. */
  ghost predicate IsNthPrime(i: nat, p: nat) { IsPrime(p) && PrimesBelow(p) == i }

  /** A number below 324 that is no prime has one of these for a divisor. */
  predicate SmallDivisor(n: nat)
  {
    || (n > 2 && n % 2 == 0) || (n > 3 && n % 3 == 0) || (n > 5 && n % 5 == 0) || (n > 7 && n % 7 == 0)
    || (n > 11 && n % 11 == 0) || (n > 13 && n % 13 == 0) || (n > 17 && n % 17 == 0)
  }

  lemma SmallIsComposite(n: nat)
    requires SmallDivisor(n)
    ensures !IsPrime(n)
  {
    if n > 2 && n % 2 == 0 {
    } else if n > 3 && n % 3 == 0 {
    } else if n > 5 && n % 5 == 0 {
    } else if n > 7 && n % 7 == 0 {
    } else if n > 11 && n % 11 == 0 {
    } else if n > 13 && n % 13 == 0 {
    } else {
      assert n % 17 == 0;
    }
  }

  lemma FreeIsPrime(n: nat)
    requires 2 <= n < 324 && !SmallDivisor(n)
    ensures IsPrime(n)
  {
    forall d | 2 <= d < n ensures n % d != 0 {
      if n % d == 0 {
        var e := n / d;
        Factors(n, d, e);
        if d < 18 { DividesSmall(n, d, e); } else { DividesSmall(n, e, d); }
      }
    }
  }

  lemma Factors(n: nat, d: nat, e: nat)
    requires 2 <= d < n < 324 && n % d == 0 && e == n / d
    ensures n == d * e && 2 <= e && (d < 18 || e < 18)
  {
    assert n == d * e;
    if d >= 18 { assert d * e >= 18 * e; }
  }

  lemma DividesSmall(n: nat, d: nat, e: nat)
    requires n == d * e && 2 <= d < 18 && e >= 2
    ensures SmallDivisor(n)
  {
    if d % 2 == 0 {
      Multiple(n, 2, d / 2, d, e);
    } else if d % 3 == 0 {
      Multiple(n, 3, d / 3, d, e);
    } else {
      PrimeMultiple(n, d, e);
    }
  }

  lemma Multiple(n: nat, p: nat, k: nat, d: nat, e: nat)
    requires (p == 2 || p == 3) && d == p * k && n == d * e && k >= 1 && e >= 2
    ensures n % p == 0 && n > p
  {
    var c := k * e;
    assert c >= e;
    assert n == p * c;
  }

  lemma PrimeMultiple(n: nat, d: nat, e: nat)
    requires (d == 5 || d == 7 || d == 11 || d == 13 || d == 17) && n == d * e && e >= 2
    ensures SmallDivisor(n)
  {
    if d == 5 { Times5(n, e); }
    if d == 7 { Times7(n, e); }
    if d == 11 { Times11(n, e); }
    if d == 13 { Times13(n, e); }
    if d == 17 { Times17(n, e); }
  }

  lemma Times5(n: nat, e: nat)
    requires n == 5 * e && e >= 2
    ensures n % 5 == 0 && n > 5
  {
  }

  lemma Times7(n: nat, e: nat)
    requires n == 7 * e && e >= 2
    ensures n % 7 == 0 && n > 7
  {
  }

  lemma Times11(n: nat, e: nat)
    requires n == 11 * e && e >= 2
    ensures n % 11 == 0 && n > 11
  {
  }

  lemma Times13(n: nat, e: nat)
    requires n == 13 * e && e >= 2
    ensures n % 13 == 0 && n > 13
  {
  }

  lemma Times17(n: nat, e: nat)
    requires n == 17 * e && e >= 2
    ensures n % 17 == 0 && n > 17
  {
  }

  predicate AllSmall(lo: nat, hi: nat)
    decreases hi - lo
  {
    lo >= hi || (SmallDivisor(lo) && AllSmall(lo + 1, hi))
  }

  lemma {:induction false} GapCounts(p: nat, n: nat, q: nat)
    requires IsPrime(p) && p < n <= q && AllSmall(n, q) && PrimesBelow(n) == PrimesBelow(p) + 1
    ensures PrimesBelow(q) == PrimesBelow(p) + 1
    decreases q - n
  {
    if n < q {
      SmallIsComposite(n);
      GapCounts(p, n + 1, q);
    }
  }

  /** From one prime to the next, with only composite numbers from `n` on between them. */
  lemma NextPrime(i: nat, p: nat, n: nat, q: nat)
    requires IsNthPrime(i, p) && n == p + 1 <= q < 324 && AllSmall(n, q) && !SmallDivisor(q)
    ensures IsNthPrime(i + 1, q)
  {
    FreeIsPrime(q);
    hide IsPrime;
    GapCounts(p, n, q);
  }

  lemma FirstPrime()
    ensures IsNthPrime(0, 2)
  {
    assert PrimesBelow(2) == PrimesBelow(1) && PrimesBelow(1) == PrimesBelow(0);
  }

  /** `c` and the 32 bits of `k` are the integer part and the first bits of the fraction of a cube root. */
  predicate CubeRoot(p: nat, c: nat, k: nat)
  {
    var n := c * TWO32 + k;
    k < TWO32 && n * n * n <= p * TWO32 * TWO32 * TWO32 < (n + 1) * (n + 1) * (n + 1)
  }

  /** The same of a square root, with `b` the weight of the integer part. */
  predicate SquareRoot(p: nat, c: nat, b: nat, k: nat)
  {
    var n := c * b + k;
    k < TWO32 && n * n <= p * b * b < (n + 1) * (n + 1)
  }

  lemma Primes0()
    ensures IsNthPrime(0, 2) && IsNthPrime(1, 3)
    ensures IsNthPrime(2, 5) && IsNthPrime(3, 7)
    ensures IsNthPrime(4, 11) && IsNthPrime(5, 13)
    ensures IsNthPrime(6, 17) && IsNthPrime(7, 19)
  {
    hide IsNthPrime;
    FirstPrime();
    NextPrime(0, 2, 3, 3);
    NextPrime(1, 3, 4, 5);
    NextPrime(2, 5, 6, 7);
    NextPrime(3, 7, 8, 11);
    NextPrime(4, 11, 12, 13);
    NextPrime(5, 13, 14, 17);
    NextPrime(6, 17, 18, 19);
  }

  lemma Primes1()
    ensures IsNthPrime(8, 23) && IsNthPrime(9, 29)
    ensures IsNthPrime(10, 31) && IsNthPrime(11, 37)
    ensures IsNthPrime(12, 41) && IsNthPrime(13, 43)
    ensures IsNthPrime(14, 47) && IsNthPrime(15, 53)
  {
    hide IsNthPrime;
    Primes0();
    NextPrime(7, 19, 20, 23);
    NextPrime(8, 23, 24, 29);
    NextPrime(9, 29, 30, 31);
    NextPrime(10, 31, 32, 37);
    NextPrime(11, 37, 38, 41);
    NextPrime(12, 41, 42, 43);
    NextPrime(13, 43, 44, 47);
    NextPrime(14, 47, 48, 53);
  }

  lemma Primes2()
    ensures IsNthPrime(16, 59) && IsNthPrime(17, 61)
    ensures IsNthPrime(18, 67) && IsNthPrime(19, 71)
    ensures IsNthPrime(20, 73) && IsNthPrime(21, 79)
    ensures IsNthPrime(22, 83) && IsNthPrime(23, 89)
  {
    hide IsNthPrime;
    Primes1();
    NextPrime(15, 53, 54, 59);
    NextPrime(16, 59, 60, 61);
    NextPrime(17, 61, 62, 67);
    NextPrime(18, 67, 68, 71);
    NextPrime(19, 71, 72, 73);
    NextPrime(20, 73, 74, 79);
    NextPrime(21, 79, 80, 83);
    NextPrime(22, 83, 84, 89);
  }

  lemma Primes3()
    ensures IsNthPrime(24, 97) && IsNthPrime(25, 101)
    ensures IsNthPrime(26, 103) && IsNthPrime(27, 107)
    ensures IsNthPrime(28, 109) && IsNthPrime(29, 113)
    ensures IsNthPrime(30, 127) && IsNthPrime(31, 131)
  {
    hide IsNthPrime;
    Primes2();
    NextPrime(23, 89, 90, 97);
    NextPrime(24, 97, 98, 101);
    NextPrime(25, 101, 102, 103);
    NextPrime(26, 103, 104, 107);
    NextPrime(27, 107, 108, 109);
    NextPrime(28, 109, 110, 113);
    NextPrime(29, 113, 114, 127);
    NextPrime(30, 127, 128, 131);
  }

  lemma Primes4()
    ensures IsNthPrime(32, 137) && IsNthPrime(33, 139)
    ensures IsNthPrime(34, 149) && IsNthPrime(35, 151)
    ensures IsNthPrime(36, 157) && IsNthPrime(37, 163)
    ensures IsNthPrime(38, 167) && IsNthPrime(39, 173)
  {
    hide IsNthPrime;
    Primes3();
    NextPrime(31, 131, 132, 137);
    NextPrime(32, 137, 138, 139);
    NextPrime(33, 139, 140, 149);
    NextPrime(34, 149, 150, 151);
    NextPrime(35, 151, 152, 157);
    NextPrime(36, 157, 158, 163);
    NextPrime(37, 163, 164, 167);
    NextPrime(38, 167, 168, 173);
  }

  lemma Primes5()
    ensures IsNthPrime(40, 179) && IsNthPrime(41, 181)
    ensures IsNthPrime(42, 191) && IsNthPrime(43, 193)
    ensures IsNthPrime(44, 197) && IsNthPrime(45, 199)
    ensures IsNthPrime(46, 211) && IsNthPrime(47, 223)
  {
    hide IsNthPrime;
    Primes4();
    NextPrime(39, 173, 174, 179);
    NextPrime(40, 179, 180, 181);
    NextPrime(41, 181, 182, 191);
    NextPrime(42, 191, 192, 193);
    NextPrime(43, 193, 194, 197);
    NextPrime(44, 197, 198, 199);
    NextPrime(45, 199, 200, 211);
    NextPrime(46, 211, 212, 223);
  }

  lemma Primes6()
    ensures IsNthPrime(48, 227) && IsNthPrime(49, 229)
    ensures IsNthPrime(50, 233) && IsNthPrime(51, 239)
    ensures IsNthPrime(52, 241) && IsNthPrime(53, 251)
    ensures IsNthPrime(54, 257) && IsNthPrime(55, 263)
  {
    hide IsNthPrime;
    Primes5();
    NextPrime(47, 223, 224, 227);
    NextPrime(48, 227, 228, 229);
    NextPrime(49, 229, 230, 233);
    NextPrime(50, 233, 234, 239);
    NextPrime(51, 239, 240, 241);
    NextPrime(52, 241, 242, 251);
    NextPrime(53, 251, 252, 257);
    NextPrime(54, 257, 258, 263);
  }

  lemma Primes7()
    ensures IsNthPrime(56, 269) && IsNthPrime(57, 271)
    ensures IsNthPrime(58, 277) && IsNthPrime(59, 281)
    ensures IsNthPrime(60, 283) && IsNthPrime(61, 293)
    ensures IsNthPrime(62, 307) && IsNthPrime(63, 311)
  {
    hide IsNthPrime;
    Primes6();
    NextPrime(55, 263, 264, 269);
    NextPrime(56, 269, 270, 271);
    NextPrime(57, 271, 272, 277);
    NextPrime(58, 277, 278, 281);
    NextPrime(59, 281, 282, 283);
    NextPrime(60, 283, 284, 293);
    NextPrime(61, 293, 294, 307);
    NextPrime(62, 307, 308, 311);
  }

  lemma Words0(i: nat) returns (p: nat, c: nat)
    requires 0 <= i < 4
    ensures IsNthPrime(i, p) && CubeRoot(p, c, H2.K(i) as nat)
  {
    hide IsNthPrime;
    Primes0();
    match i
    case 0 =>
      p, c := 2, 1;
      assert H2.K(0) == 0x428a2f98;
    case 1 =>
      p, c := 3, 1;
      assert H2.K(1) == 0x71374491;
    case 2 =>
      p, c := 5, 1;
      assert H2.K(2) == 0xb5c0fbcf;
    case _ =>
      p, c := 7, 1;
      assert H2.K(3) == 0xe9b5dba5;
  }

  lemma Words1(i: nat) returns (p: nat, c: nat)
    requires 4 <= i < 8
    ensures IsNthPrime(i, p) && CubeRoot(p, c, H2.K(i) as nat)
  {
    hide IsNthPrime;
    Primes0();
    match i
    case 4 =>
      p, c := 11, 2;
      assert H2.K(4) == 0x3956c25b;
    case 5 =>
      p, c := 13, 2;
      assert H2.K(5) == 0x59f111f1;
    case 6 =>
      p, c := 17, 2;
      assert H2.K(6) == 0x923f82a4;
    case _ =>
      p, c := 19, 2;
      assert H2.K(7) == 0xab1c5ed5;
  }

  lemma Words2(i: nat) returns (p: nat, c: nat)
    requires 8 <= i < 12
    ensures IsNthPrime(i, p) && CubeRoot(p, c, H2.K(i) as nat)
  {
    hide IsNthPrime;
    Primes1();
    match i
    case 8 =>
      p, c := 23, 2;
      assert H2.K(8) == 0xd807aa98;
    case 9 =>
      p, c := 29, 3;
      assert H2.K(9) == 0x12835b01;
    case 10 =>
      p, c := 31, 3;
      assert H2.K(10) == 0x243185be;
    case _ =>
      p, c := 37, 3;
      assert H2.K(11) == 0x550c7dc3;
  }

  lemma Words3(i: nat) returns (p: nat, c: nat)
    requires 12 <= i < 16
    ensures IsNthPrime(i, p) && CubeRoot(p, c, H2.K(i) as nat)
  {
    hide IsNthPrime;
    Primes1();
    match i
    case 12 =>
      p, c := 41, 3;
      assert H2.K(12) == 0x72be5d74;
    case 13 =>
      p, c := 43, 3;
      assert H2.K(13) == 0x80deb1fe;
    case 14 =>
      p, c := 47, 3;
      assert H2.K(14) == 0x9bdc06a7;
    case _ =>
      p, c := 53, 3;
      assert H2.K(15) == 0xc19bf174;
  }

  lemma Words4(i: nat) returns (p: nat, c: nat)
    requires 16 <= i < 20
    ensures IsNthPrime(i, p) && CubeRoot(p, c, H2.K(i) as nat)
  {
    hide IsNthPrime;
    Primes2();
    match i
    case 16 =>
      p, c := 59, 3;
      assert H2.K(16) == 0xe49b69c1;
    case 17 =>
      p, c := 61, 3;
      assert H2.K(17) == 0xefbe4786;
    case 18 =>
      p, c := 67, 4;
      assert H2.K(18) == 0x0fc19dc6;
    case _ =>
      p, c := 71, 4;
      assert H2.K(19) == 0x240ca1cc;
  }

  lemma Words5(i: nat) returns (p: nat, c: nat)
    requires 20 <= i < 24
    ensures IsNthPrime(i, p) && CubeRoot(p, c, H2.K(i) as nat)
  {
    hide IsNthPrime;
    Primes2();
    match i
    case 20 =>
      p, c := 73, 4;
      assert H2.K(20) == 0x2de92c6f;
    case 21 =>
      p, c := 79, 4;
      assert H2.K(21) == 0x4a7484aa;
    case 22 =>
      p, c := 83, 4;
      assert H2.K(22) == 0x5cb0a9dc;
    case _ =>
      p, c := 89, 4;
      assert H2.K(23) == 0x76f988da;
  }

  lemma Words6(i: nat) returns (p: nat, c: nat)
    requires 24 <= i < 28
    ensures IsNthPrime(i, p) && CubeRoot(p, c, H2.K(i) as nat)
  {
    hide IsNthPrime;
    Primes3();
    match i
    case 24 =>
      p, c := 97, 4;
      assert H2.K(24) == 0x983e5152;
    case 25 =>
      p, c := 101, 4;
      assert H2.K(25) == 0xa831c66d;
    case 26 =>
      p, c := 103, 4;
      assert H2.K(26) == 0xb00327c8;
    case _ =>
      p, c := 107, 4;
      assert H2.K(27) == 0xbf597fc7;
  }

  lemma Words7(i: nat) returns (p: nat, c: nat)
    requires 28 <= i < 32
    ensures IsNthPrime(i, p) && CubeRoot(p, c, H2.K(i) as nat)
  {
    hide IsNthPrime;
    Primes3();
    match i
    case 28 =>
      p, c := 109, 4;
      assert H2.K(28) == 0xc6e00bf3;
    case 29 =>
      p, c := 113, 4;
      assert H2.K(29) == 0xd5a79147;
    case 30 =>
      p, c := 127, 5;
      assert H2.K(30) == 0x06ca6351;
    case _ =>
      p, c := 131, 5;
      assert H2.K(31) == 0x14292967;
  }

  lemma Words8(i: nat) returns (p: nat, c: nat)
    requires 32 <= i < 36
    ensures IsNthPrime(i, p) && CubeRoot(p, c, H2.K(i) as nat)
  {
    hide IsNthPrime;
    Primes4();
    match i
    case 32 =>
      p, c := 137, 5;
      assert H2.K(32) == 0x27b70a85;
    case 33 =>
      p, c := 139, 5;
      assert H2.K(33) == 0x2e1b2138;
    case 34 =>
      p, c := 149, 5;
      assert H2.K(34) == 0x4d2c6dfc;
    case _ =>
      p, c := 151, 5;
      assert H2.K(35) == 0x53380d13;
  }

  lemma Words9(i: nat) returns (p: nat, c: nat)
    requires 36 <= i < 40
    ensures IsNthPrime(i, p) && CubeRoot(p, c, H2.K(i) as nat)
  {
    hide IsNthPrime;
    Primes4();
    match i
    case 36 =>
      p, c := 157, 5;
      assert H2.K(36) == 0x650a7354;
    case 37 =>
      p, c := 163, 5;
      assert H2.K(37) == 0x766a0abb;
    case 38 =>
      p, c := 167, 5;
      assert H2.K(38) == 0x81c2c92e;
    case _ =>
      p, c := 173, 5;
      assert H2.K(39) == 0x92722c85;
  }

  lemma Words10(i: nat) returns (p: nat, c: nat)
    requires 40 <= i < 44
    ensures IsNthPrime(i, p) && CubeRoot(p, c, H2.K(i) as nat)
  {
    hide IsNthPrime;
    Primes5();
    match i
    case 40 =>
      p, c := 179, 5;
      assert H2.K(40) == 0xa2bfe8a1;
    case 41 =>
      p, c := 181, 5;
      assert H2.K(41) == 0xa81a664b;
    case 42 =>
      p, c := 191, 5;
      assert H2.K(42) == 0xc24b8b70;
    case _ =>
      p, c := 193, 5;
      assert H2.K(43) == 0xc76c51a3;
  }

  lemma Words11(i: nat) returns (p: nat, c: nat)
    requires 44 <= i < 48
    ensures IsNthPrime(i, p) && CubeRoot(p, c, H2.K(i) as nat)
  {
    hide IsNthPrime;
    Primes5();
    match i
    case 44 =>
      p, c := 197, 5;
      assert H2.K(44) == 0xd192e819;
    case 45 =>
      p, c := 199, 5;
      assert H2.K(45) == 0xd6990624;
    case 46 =>
      p, c := 211, 5;
      assert H2.K(46) == 0xf40e3585;
    case _ =>
      p, c := 223, 6;
      assert H2.K(47) == 0x106aa070;
  }

  lemma Words12(i: nat) returns (p: nat, c: nat)
    requires 48 <= i < 52
    ensures IsNthPrime(i, p) && CubeRoot(p, c, H2.K(i) as nat)
  {
    hide IsNthPrime;
    Primes6();
    match i
    case 48 =>
      p, c := 227, 6;
      assert H2.K(48) == 0x19a4c116;
    case 49 =>
      p, c := 229, 6;
      assert H2.K(49) == 0x1e376c08;
    case 50 =>
      p, c := 233, 6;
      assert H2.K(50) == 0x2748774c;
    case _ =>
      p, c := 239, 6;
      assert H2.K(51) == 0x34b0bcb5;
  }

  lemma Words13(i: nat) returns (p: nat, c: nat)
    requires 52 <= i < 56
    ensures IsNthPrime(i, p) && CubeRoot(p, c, H2.K(i) as nat)
  {
    hide IsNthPrime;
    Primes6();
    match i
    case 52 =>
      p, c := 241, 6;
      assert H2.K(52) == 0x391c0cb3;
    case 53 =>
      p, c := 251, 6;
      assert H2.K(53) == 0x4ed8aa4a;
    case 54 =>
      p, c := 257, 6;
      assert H2.K(54) == 0x5b9cca4f;
    case _ =>
      p, c := 263, 6;
      assert H2.K(55) == 0x682e6ff3;
  }

  lemma Words14(i: nat) returns (p: nat, c: nat)
    requires 56 <= i < 60
    ensures IsNthPrime(i, p) && CubeRoot(p, c, H2.K(i) as nat)
  {
    hide IsNthPrime;
    Primes7();
    match i
    case 56 =>
      p, c := 269, 6;
      assert H2.K(56) == 0x748f82ee;
    case 57 =>
      p, c := 271, 6;
      assert H2.K(57) == 0x78a5636f;
    case 58 =>
      p, c := 277, 6;
      assert H2.K(58) == 0x84c87814;
    case _ =>
      p, c := 281, 6;
      assert H2.K(59) == 0x8cc70208;
  }

  lemma Words15(i: nat) returns (p: nat, c: nat)
    requires 60 <= i < 64
    ensures IsNthPrime(i, p) && CubeRoot(p, c, H2.K(i) as nat)
  {
    hide IsNthPrime;
    Primes7();
    match i
    case 60 =>
      p, c := 283, 6;
      assert H2.K(60) == 0x90befffa;
    case 61 =>
      p, c := 293, 6;
      assert H2.K(61) == 0xa4506ceb;
    case 62 =>
      p, c := 307, 6;
      assert H2.K(62) == 0xbef9a3f7;
    case _ =>
      p, c := 311, 6;
      assert H2.K(63) == 0xc67178f2;
  }

  /** Section 4.2.2 of FIPS 180-4: word `i` is made of the first 32 bits of the fraction of the cube root of
      prime number `i`. */
  lemma KIsCubeRoots(i: nat) returns (p: nat, c: nat)
    requires i < 64
    ensures IsNthPrime(i, p) && CubeRoot(p, c, H2.K(i) as nat)
  {
    hide IsNthPrime, CubeRoot, H2.K;
    match i / 4
    case 0 => p, c := Words0(i);
    case 1 => p, c := Words1(i);
    case 2 => p, c := Words2(i);
    case 3 => p, c := Words3(i);
    case 4 => p, c := Words4(i);
    case 5 => p, c := Words5(i);
    case 6 => p, c := Words6(i);
    case 7 => p, c := Words7(i);
    case 8 => p, c := Words8(i);
    case 9 => p, c := Words9(i);
    case 10 => p, c := Words10(i);
    case 11 => p, c := Words11(i);
    case 12 => p, c := Words12(i);
    case 13 => p, c := Words13(i);
    case 14 => p, c := Words14(i);
    case _ => p, c := Words15(i);
  }

  /** Section 5.3.3: the initial hash value is made of the square roots of the first eight primes. */
  lemma H0IsSquareRoots(i: nat) returns (p: nat, c: nat)
    requires i < 8
    ensures |H2.WordsOf(H2.H0)| == 8 && IsNthPrime(i, p) && SquareRoot(p, c, TWO32, H2.WordsOf(H2.H0)[i] as nat)
  {
    hide IsNthPrime;
    Primes0();
    match i
    case 0 => p, c := 2, 1;
    case 1 => p, c := 3, 1;
    case 2 => p, c := 5, 2;
    case 3 => p, c := 7, 2;
    case 4 => p, c := 11, 3;
    case 5 => p, c := 13, 3;
    case 6 => p, c := 17, 4;
    case _ => p, c := 19, 4;
  }

  /** Section 4.2.1: the constants of SHA-1 are the square roots of 2, 3, 5 and 10, times 2^30. */
  lemma Sha1Constants(t: nat)
    requires t < 80
    ensures var n := if t < 20 then 2 else if t < 40 then 3 else if t < 60 then 5 else 10;
      SquareRoot(n, 0, 0x4000_0000, H1.Constant(t) as nat)
  {
  }

  /** Section 5.3.1: the bytes of the initial hash value of SHA-1, in the order of a little-endian machine, count
      up by 0x22, then down, and the last word counts down by 0x0f. */
  lemma Sha1Initial(j: nat)
    requires j < 4
    ensures var h := H1.H0; var w := [h.a, h.b, h.c, h.d, h.e];
      && Byte(w[0], j) == 0x01 + 0x22 * j && Byte(w[1], j) == 0x89 + 0x22 * j
      && Byte(w[2], j) == 0xfe - 0x22 * j && Byte(w[3], j) == 0x76 - 0x22 * j
      && Byte(w[4], j) == 0xf0 - 0x0f * j
  {
    match j
    case 0 =>
    case 1 =>
    case 2 =>
    case _ =>
  }

  function Byte(w: Word, j: nat): nat
    requires j < 4
  {
    ((w >> (8 * j)) & 0xff) as nat
  }

  /** Section 4.1.2: choice takes the second word where the first has a bit and the third elsewhere. */
  lemma ChoiceBits(x: Word, y: Word, z: Word, j: Word)
    ensures Bit(Ch(x, y, z), j) == if Bit(x, j) then Bit(y, j) else Bit(z, j)
  {
    hide Bit;
    ChoiceAt(x, y, z, j);
  }

  /** Majority has the bits that two of the three words have. */
  lemma MajorityBits(x: Word, y: Word, z: Word, j: Word)
    ensures Bit(Maj(x, y, z), j) ==
      ((Bit(x, j) && Bit(y, j)) || (Bit(x, j) && Bit(z, j)) || (Bit(y, j) && Bit(z, j)))
  {
    hide Bit;
    MajorityAt(x, y, z, j);
  }

  /** A bit of a word shifted right by `n`, which is gone beyond the last one. */
  predicate Shifted(x: Word, j: Word, n: Word)
  {
    (j & 31) < 32 - n && Bit(x, j + n)
  }

  lemma Rot2(x: Word, j: Word)
    ensures Bit(H2.RotR(2, x), j) == Bit(x, j + 2)
  {
  }

  lemma Rot6(x: Word, j: Word)
    ensures Bit(H2.RotR(6, x), j) == Bit(x, j + 6)
  {
  }

  lemma Rot7(x: Word, j: Word)
    ensures Bit(H2.RotR(7, x), j) == Bit(x, j + 7)
  {
  }

  lemma Rot11(x: Word, j: Word)
    ensures Bit(H2.RotR(11, x), j) == Bit(x, j + 11)
  {
  }

  lemma Rot13(x: Word, j: Word)
    ensures Bit(H2.RotR(13, x), j) == Bit(x, j + 13)
  {
  }

  lemma Rot17(x: Word, j: Word)
    ensures Bit(H2.RotR(17, x), j) == Bit(x, j + 17)
  {
  }

  lemma Rot18(x: Word, j: Word)
    ensures Bit(H2.RotR(18, x), j) == Bit(x, j + 18)
  {
  }

  lemma Rot19(x: Word, j: Word)
    ensures Bit(H2.RotR(19, x), j) == Bit(x, j + 19)
  {
  }

  lemma Rot22(x: Word, j: Word)
    ensures Bit(H2.RotR(22, x), j) == Bit(x, j + 22)
  {
  }

  lemma Rot25(x: Word, j: Word)
    ensures Bit(H2.RotR(25, x), j) == Bit(x, j + 25)
  {
  }

  lemma Shift3(x: Word, j: Word)
    ensures Bit(H2.ShiftR(3, x), j) == Shifted(x, j, 3)
  {
  }

  lemma Shift10(x: Word, j: Word)
    ensures Bit(H2.ShiftR(10, x), j) == Shifted(x, j, 10)
  {
  }

  /** The sigma functions of section 4.1.2, bit by bit. */
  lemma Sigma0Bits(x: Word, j: Word)
    ensures Bit(H2.Sigma0(x), j) == Xor(Xor(Bit(x, j + 2), Bit(x, j + 13)), Bit(x, j + 22))
  {
    hide Bit, H2.RotR, H2.ShiftR, Shifted;
    Rot2(x, j);
    Rot13(x, j);
    Rot22(x, j);
    XorBits3(H2.RotR(2, x), H2.RotR(13, x), H2.RotR(22, x), j);
  }

  lemma Sigma1Bits(x: Word, j: Word)
    ensures Bit(H2.Sigma1(x), j) == Xor(Xor(Bit(x, j + 6), Bit(x, j + 11)), Bit(x, j + 25))
  {
    hide Bit, H2.RotR, H2.ShiftR, Shifted;
    Rot6(x, j);
    Rot11(x, j);
    Rot25(x, j);
    XorBits3(H2.RotR(6, x), H2.RotR(11, x), H2.RotR(25, x), j);
  }

  lemma LowerSigma0Bits(x: Word, j: Word)
    ensures Bit(H2.LowerSigma0(x), j) == Xor(Xor(Bit(x, j + 7), Bit(x, j + 18)), Shifted(x, j, 3))
  {
    hide Bit, H2.RotR, H2.ShiftR, Shifted;
    Rot7(x, j);
    Rot18(x, j);
    Shift3(x, j);
    XorBits3(H2.RotR(7, x), H2.RotR(18, x), H2.ShiftR(3, x), j);
  }

  lemma LowerSigma1Bits(x: Word, j: Word)
    ensures Bit(H2.LowerSigma1(x), j) == Xor(Xor(Bit(x, j + 17), Bit(x, j + 19)), Shifted(x, j, 10))
  {
    hide Bit, H2.RotR, H2.ShiftR, Shifted;
    Rot17(x, j);
    Rot19(x, j);
    Shift10(x, j);
    XorBits3(H2.RotR(17, x), H2.RotR(19, x), H2.ShiftR(10, x), j);
  }

  /** The rotations of SHA-1. */
  lemma RotL1(x: Word, j: Word)
    ensures Bit(H1.RotL(1, x), j) == Bit(x, j - 1)
  {
  }

  lemma RotL5(x: Word, j: Word)
    ensures Bit(H1.RotL(5, x), j) == Bit(x, j - 5)
  {
  }

  lemma RotL30(x: Word, j: Word)
    ensures Bit(H1.RotL(30, x), j) == Bit(x, j - 30)
  {
  }

  lemma AddOne(x: Word)
    ensures Add(x, 0) == x && Add(0xffff_ffff, 1) == 0 && Add(1, 0xffff_ffff) == 0
  {
  }

  lemma AddMore(x: Word)
    ensures x < 0xffff_ffff ==> x < Add(x, 1)
  {
  }

  /** Section 3.2: addition modulo 2^32 counts up from its first word by ones: one more is a larger word, until it is
      zero again, and no two words have the same one after them. */
  lemma AddCounts(x: Word, y: Word)
    ensures Add(x, 0) == x && Add(x, Add(y, 1)) == Add(Add(x, y), 1)
    ensures (x < 0xffff_ffff ==> x < Add(x, 1)) && Add(0xffff_ffff, 1) == 0
    ensures Add(x, 1) == Add(y, 1) ==> x == y
  {
    hide Add;
    AddOne(x);
    AddOne(y);
    AddMore(x);
    H1.AddLaws(x, y, 1);
    H1.AddLaws(x, 1, 0xffff_ffff);
    H1.AddLaws(y, 1, 0xffff_ffff);
  }

  /** Section 4.1.1: the function of a round of SHA-1 is choice, parity, majority and parity again. */
  lemma LogicalBits(t: nat, x: Word, y: Word, z: Word, j: Word)
    requires t < 80
    ensures var (a, b, c) := (Bit(x, j), Bit(y, j), Bit(z, j));
      Bit(H1.Logical(t, x, y, z), j) ==
        if t < 20 then (if a then b else c)
        else if 40 <= t < 60 then (a && b) || (a && c) || (b && c)
        else Xor(Xor(a, b), c)
  {
    hide Bit, Ch, Maj, H1.Parity;
    if t < 20 {
      ChoiceBits(x, y, z, j);
    } else if 40 <= t < 60 {
      MajorityBits(x, y, z, j);
    } else {
      ParityBits(x, y, z, j);
    }
  }

  lemma ParityBits(x: Word, y: Word, z: Word, j: Word)
    ensures Bit(H1.Parity(x, y, z), j) == Xor(Xor(Bit(x, j), Bit(y, j)), Bit(z, j))
  {
    hide Bit;
    XorBits3(x, y, z, j);
  }

  /** Section 6.1.2: a word of the schedule of SHA-1 is the sum of four words before it, rotated by one. */
  lemma MixBits(w3: Word, w8: Word, w14: Word, w16: Word, j: Word)
    ensures Bit(H1.Mix(w3, w8, w14, w16), j) ==
      Xor(Xor(Xor(Bit(w3, j - 1), Bit(w8, j - 1)), Bit(w14, j - 1)), Bit(w16, j - 1))
  {
    hide Bit, H1.RotL;
    XorBits4(w3, w8, w14, w16, j - 1);
    RotL1(w3 ^ w8 ^ w14 ^ w16, j);
  }
}

// The bits of 32-bit words.
module WordBits {
  /** Bit `j` of a word, with bits counted modulo 32. */
  predicate Bit(x: bv32, j: bv32) { (x >> (j & 31)) & 1 == 1 }

  predicate Xor(a: bool, b: bool) { a != b }

  lemma XorBits3(x: bv32, y: bv32, z: bv32, j: bv32)
    ensures Bit(x ^ y ^ z, j) == Xor(Xor(Bit(x, j), Bit(y, j)), Bit(z, j))
  {
  }

  lemma XorBits4(x: bv32, y: bv32, z: bv32, w: bv32, j: bv32)
    ensures Bit(x ^ y ^ z ^ w, j) == Xor(Xor(Xor(Bit(x, j), Bit(y, j)), Bit(z, j)), Bit(w, j))
  {
  }

  lemma ChoiceAt(x: bv32, y: bv32, z: bv32, j: bv32)
    ensures Bit((x & y) ^ (!x & z), j) == if Bit(x, j) then Bit(y, j) else Bit(z, j)
  {
  }

  lemma MajorityAt(x: bv32, y: bv32, z: bv32, j: bv32)
    ensures Bit((x & y) ^ (x & z) ^ (y & z), j) ==
      ((Bit(x, j) && Bit(y, j)) || (Bit(x, j) && Bit(z, j)) || (Bit(y, j) && Bit(z, j)))
  {
  }
}

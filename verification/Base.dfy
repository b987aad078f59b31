/** What the modules share. */
module Base {
  datatype Option<T> = None | Some(value: T)

  /** The largest int of llimits.h, two below the largest of the machine. */
  const MAX_INT := 2147483645

  const TWO32 := 0x1_0000_0000

  const TWO64 := 0x1_0000_0000_0000_0000

  ghost predicate Distinct(l: seq<int>) { forall i, j :: 0 <= i < j < |l| ==> l[i] != l[j] }

  predicate IsDigit(c: char) { '0' <= c <= '9' }

  function Min(a: int, b: int): int { if a <= b then a else b }

  function Pow2(k: nat): (p: nat)
    ensures p > 0
  {
    if k == 0 then 1 else 2 * Pow2(k - 1)
  }

  function Pow256(k: nat): (p: nat)
    ensures p > 0
  {
    if k == 0 then 1 else 256 * Pow256(k - 1)
  }

  /** `t` is written in `p` at `i`. */
  predicate Written(p: string, i: nat, t: string) { i + |t| <= |p| && p[i..i + |t|] == t }

  lemma WrittenParts(p: string, i: nat, t: string, u: string)
    requires Written(p, i, t + u)
    ensures Written(p, i, t) && Written(p, i + |t|, u)
  {
    assert p[i..i + |t|] == p[i..i + |t + u|][..|t|];
    assert p[i + |t|..i + |t| + |u|] == p[i..i + |t + u|][|t|..];
  }

  lemma WrittenChar(p: string, i: nat, t: string, j: nat)
    requires Written(p, i, t) && j < |t|
    ensures i + j < |p| && p[i + j] == t[j]
  {
    assert p[i..i + |t|][j] == p[i + j];
  }
}

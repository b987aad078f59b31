/** Jump lists as the generator keeps them: threaded through the jumps themselves, each of which
    holds the distance to the next one until it gets its target (lcode.c). */
module CodeLists {
  import opened Base
  import opened LuaVm
  import G = CodeGen
  import S = CodeShape

  const NO_JUMP := G.NO_JUMP

  /** getjump: the jump after `pc` in its list. */
  function Next(code: seq<Instr>, pc: nat): int
    requires pc < |code| && code[pc].Jmp?
  {
    if code[pc].sbx == NO_JUMP then NO_JUMP else pc + 1 + code[pc].sbx
  }

  /** `head` starts the list of the jumps `l`. */
  ghost predicate IsList(code: seq<Instr>, head: int, l: seq<nat>)
    decreases |l|
  {
    if l == [] then head == NO_JUMP
    else head == l[0] && l[0] < |code| && code[l[0]].Jmp? && IsList(code, Next(code, l[0]), l[1..])
  }

  /** A list of distinct jumps. */
  ghost predicate JumpList(code: seq<Instr>, head: int, l: seq<nat>) { IsList(code, head, l) && Distinct(l) }

  /** What a list is depends only on its own jumps. */
  lemma {:induction false} ListKept(code: seq<Instr>, code': seq<Instr>, head: int, l: seq<nat>)
    requires IsList(code, head, l) && forall p :: p in l && p < |code| ==> p < |code'| && code'[p] == code[p]
    ensures IsList(code', head, l)
    decreases |l|
  {
    if l != [] {
      assert forall p :: p in l[1..] ==> p in l;
      ListKept(code, code', Next(code, l[0]), l[1..]);
    }
  }

  lemma {:induction false} ListMembers(code: seq<Instr>, head: int, l: seq<nat>)
    requires IsList(code, head, l)
    ensures forall p :: p in l ==> p < |code| && code[p].Jmp?
    decreases |l|
  {
    if l != [] {
      ListMembers(code, Next(code, l[0]), l[1..]);
      assert l == [l[0]] + l[1..];
    }
  }

  /** There is only one list that starts at a given jump. */
  lemma {:induction false} ListUnique(code: seq<Instr>, head: int, l: seq<nat>, l': seq<nat>)
    requires IsList(code, head, l) && IsList(code, head, l')
    ensures l == l'
    decreases |l|
  {
    if l != [] && l' != [] { ListUnique(code, Next(code, l[0]), l[1..], l'[1..]); }
  }

  /** Linking the last jump of one list to the head of another joins them. */
  lemma {:induction false} ListJoined(code: seq<Instr>, h1: int, a: seq<nat>, h2: int, b: seq<nat>)
    requires JumpList(code, h1, a) && JumpList(code, h2, b) && S.Disjoint(a, b) && a != [] && b != []
    ensures var last := a[|a| - 1]; last < |code| && IsList(code[last := Jmp(h2 - (last + 1))], h1, a + b)
    decreases |a|
  {
    hide Distinct, S.Disjoint;
    ListMembers(code, h1, a);
    var last := a[|a| - 1];
    assert last in a;
    var code' := code[last := Jmp(h2 - (last + 1))];
    assert (a + b)[1..] == a[1..] + b;
    if |a| == 1 {
      OneJoined(code, last, h2, b) by { assert last !in b by { ApartAt(a, b, last); } }
      assert a[1..] + b == b;
    } else {
      TailApart(a, b);
      ListJoined(code, Next(code, a[0]), a[1..], h2, b);
      assert code'[a[0]] == code[a[0]];
    }
  }

  lemma ApartAt(a: seq<nat>, b: seq<nat>, x: nat)
    requires S.Disjoint(a, b) && x in a
    ensures x !in b
  {
  }

  lemma OneJoined(code: seq<Instr>, last: nat, h: int, b: seq<nat>)
    requires last < |code| && code[last].Jmp? && IsList(code, h, b) && b != [] && last !in b
    ensures var code' := code[last := Jmp(h - (last + 1))]; Next(code', last) == h && IsList(code', h, b)
  {
    var code' := code[last := Jmp(h - (last + 1))];
    assert b[0] in b;
    ListKept(code, code', h, b);
  }

  lemma TailApart(a: seq<nat>, b: seq<nat>)
    requires Distinct(a) && S.Disjoint(a, b) && |a| > 1
    ensures Distinct(a[1..]) && S.Disjoint(a[1..], b) && a[1..][|a[1..]| - 1] == a[|a| - 1] && a[0] != a[|a| - 1]
  {
  }

  lemma EndOfList(code: seq<Instr>, head: int, l: seq<nat>)
    requires IsList(code, head, l) && l != [] && Next(code, l[0]) == NO_JUMP
    ensures |l| == 1
  {
    assert IsList(code, Next(code, l[0]), l[1..]);
  }

  lemma NotEarlier(l: seq<nat>, n: nat)
    requires Distinct(l) && n < |l|
    ensures l[n] !in l[..n]
  {
    forall q | 0 <= q < n ensures l[..n][q] != l[n] { }
  }

  lemma JoinedDistinct(a: seq<nat>, b: seq<nat>)
    requires Distinct(a) && Distinct(b) && S.Disjoint(a, b)
    ensures Distinct(a + b)
  {
    S.DistinctAppend(a, b);
  }

  lemma PatchNothing(code: seq<Instr>, vt: int, reg: int, dt: int)
    ensures G.PatchList(code, [], vt, reg, dt) == code
  {
  }

  /** One more jump of a list gets its target. */
  lemma PatchOne(code: seq<Instr>, was: seq<Instr>, now: seq<Instr>, l: seq<nat>, n: nat, vt: int, reg: int, dt: int)
    requires n < |l| && Distinct(l) && (forall p :: p in l ==> p < |code| && code[p].Jmp?) && l[n] < |was|
    requires was == G.PatchList(code, l[..n], vt, reg, dt) && IsList(was, l[n], l[n..])
    requires var p := l[n];
      now == if HasValue(was, p) then was[p - 1 := G.PatchTest(was[p - 1], reg)][p := Jmp(vt - (p + 1))]
        else was[p := Jmp(dt - (p + 1))]
    ensures now == G.PatchList(code, l[..n + 1], vt, reg, dt) && IsList(now, Next(was, l[n]), l[n + 1..])
  {
    hide Distinct;
    var p := l[n];
    assert l[..n + 1] == l[..n] + [p] && l[n..][1..] == l[n + 1..] && l[n] in l;
    NotEarlier(l, n);
    SameValue(code, was, l, n, vt, reg, dt);
    forall i | 0 <= i < |code| ensures now[i] == G.PatchAt(code, l[..n + 1], vt, reg, dt, i) {
      assert was[i] == G.PatchAt(code, l[..n], vt, reg, dt, i);
      assert i in l[..n + 1] <==> i in l[..n] || i == p;
      assert i + 1 in l[..n + 1] <==> i + 1 in l[..n] || i + 1 == p;
    }
    ListMembers(was, l[n], l[n..]);
    forall q | q in l[n + 1..] ensures q < |was| && now[q] == was[q] { LaterJump(l, n, q); }
    ListKept(was, now, Next(was, l[n]), l[n + 1..]);
  }

  lemma LaterJump(l: seq<nat>, n: nat, q: nat)
    requires n < |l| && Distinct(l) && q in l[n + 1..]
    ensures q in l[n..] && q != l[n]
  {
    var x :| 0 <= x < |l[n + 1..]| && l[n + 1..][x] == q;
    assert l[n + 1 + x] == q && l[n..][1 + x] == q;
  }

  lemma SameValue(code: seq<Instr>, was: seq<Instr>, l: seq<nat>, n: nat, vt: int, reg: int, dt: int)
    requires n < |l| && (forall p :: p in l ==> p < |code| && code[p].Jmp?) && l[n] !in l[..n]
    requires was == G.PatchList(code, l[..n], vt, reg, dt)
    ensures HasValue(was, l[n]) == HasValue(code, l[n]) && (HasValue(code, l[n]) ==> was[l[n] - 1] == code[l[n] - 1])
  {
    var p := l[n];
    if 0 < p <= |code| {
      assert was[p - 1] == G.PatchAt(code, l[..n], vt, reg, dt, p - 1);
      if p - 1 in l[..n] { assert p - 1 in l; }
    }
  }

  lemma RemoveOne(code: seq<Instr>, was: seq<Instr>, now: seq<Instr>, l: seq<nat>, n: nat)
    requires n < |l| && Distinct(l) && (forall p :: p in l ==> p < |code| && code[p].Jmp?) && l[n] < |was|
    requires was == G.RemoveValues(code, l[..n]) && IsList(was, l[n], l[n..])
    requires var p := l[n]; now == if HasValue(was, p) then was[p - 1 := G.PatchTest(was[p - 1], NO_REG)] else was
    ensures now == G.RemoveValues(code, l[..n + 1]) && IsList(now, Next(was, l[n]), l[n + 1..])
  {
    var p := l[n];
    assert l[..n + 1] == l[..n] + [p] && l[n..][1..] == l[n + 1..];
    NotEarlier(l, n);
    forall i | 0 <= i < |code|
      ensures now[i] == if i + 1 in l[..n + 1] && code[i].TestSet? then G.PatchTest(code[i], NO_REG) else code[i]
    {
      assert i + 1 in l[..n + 1] <==> i + 1 in l[..n] || i + 1 == p;
    }
    ListMembers(was, l[n], l[n..]);
    forall q | q in l[n + 1..] ensures q < |was| && now[q] == was[q] { assert q in l[n..]; }
    ListKept(was, now, Next(was, l[n]), l[n + 1..]);
  }

  /** The same code but for the links of the jumps in `pending`. */
  ghost predicate Alike(code: seq<Instr>, code': seq<Instr>, pending: set<nat>)
  {
    && |code'| == |code|
    && forall i :: 0 <= i < |code| ==> if i in pending then code[i].Jmp? && code'[i].Jmp? else code'[i] == code[i]
  }

  /** The links play no part in what the operations make of the code, and are gone when the list
      they belong to has its target: so it is all one whether lists are threaded through the code
      or kept apart. */
  lemma LinksForgotten(code: seq<Instr>, code': seq<Instr>, pending: set<nat>, l: seq<nat>, vt: int, reg: int, dt: int)
    requires Alike(code, code', pending) && S.Elems(l) <= pending
    ensures Alike(G.PatchList(code, l, vt, reg, dt), G.PatchList(code', l, vt, reg, dt), pending - S.Elems(l))
    ensures Alike(G.RemoveValues(code, l), G.RemoveValues(code', l), pending)
    ensures G.NeedValue(code, l) == G.NeedValue(code', l)
  {
    forall p | 0 < p <= |code|
      ensures HasValue(code', p) == HasValue(code, p)
    {
      assert code[p - 1].TestSet? == code'[p - 1].TestSet?;
    }
    var c, c' := G.PatchList(code, l, vt, reg, dt), G.PatchList(code', l, vt, reg, dt);
    forall i | 0 <= i < |c| ensures if i in pending - S.Elems(l) then c[i].Jmp? && c'[i].Jmp? else c'[i] == c[i] {
      assert c[i] == G.PatchAt(code, l, vt, reg, dt, i) && c'[i] == G.PatchAt(code', l, vt, reg, dt, i);
    }
  }
}

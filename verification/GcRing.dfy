/** The ring of all open upvalues as the source holds it: each one refers to its neighbours, and the
    head `uvhead` closes the ring (lstate.h, lfunc.c). The collector reads it as a sequence. */
module GcRing {
  import opened Base
  import opened GcHeap

  datatype Node = Head | Uv(id: Id)

  /** The node at `i`: the head at both ends, the upvalues in between. */
  function NodeAt(ids: seq<Id>, i: nat): Node
  {
    if 0 < i <= |ids| then Uv(ids[i - 1]) else Head
  }

  predicate OnRing(ids: seq<Id>, x: Node) { x == Head || x.id in ids }

  /** `next` and `prev` hold the ring that reads `ids` from its head. */
  ghost predicate Represents(next: map<Node, Node>, prev: map<Node, Node>, ids: seq<Id>)
  {
    && Distinct(ids)
    && (forall x :: x in next <==> OnRing(ids, x)) && (forall x :: x in prev <==> OnRing(ids, x))
    && (forall i :: 0 <= i <= |ids| ==> next[NodeAt(ids, i)] == NodeAt(ids, i + 1))
    && (forall i :: 0 <= i <= |ids| ==> prev[NodeAt(ids, i + 1)] == NodeAt(ids, i))
  }

  lemma IndexOf(ids: seq<Id>, x: Node) returns (i: nat)
    requires OnRing(ids, x)
    ensures i <= |ids| && NodeAt(ids, i) == x
  {
    i := 0;
    if x.Uv? {
      var j :| 0 <= j < |ids| && ids[j] == x.id;
      i := j + 1;
    }
  }

  /** What the source asserts of every upvalue it meets: its neighbours refer to it. */
  lemma Neighbours(next: map<Node, Node>, prev: map<Node, Node>, ids: seq<Id>, x: Node)
    requires Represents(next, prev, ids) && x in next
    ensures x in prev && next[x] in prev && prev[next[x]] == x && prev[x] in next && next[prev[x]] == x
  {
    var i := IndexOf(ids, x);
    assert next[NodeAt(ids, i)] == NodeAt(ids, i + 1) && prev[NodeAt(ids, i + 1)] == NodeAt(ids, i);
    var j := if i == 0 then |ids| else i - 1;
    assert prev[NodeAt(ids, j + 1)] == NodeAt(ids, j) && next[NodeAt(ids, j)] == NodeAt(ids, j + 1);
  }

  /** The references determine the sequence, and the sequence the references. */
  lemma {:induction false} SameIds(next: map<Node, Node>, prev: map<Node, Node>, ids: seq<Id>, ids': seq<Id>, n: nat)
    requires Represents(next, prev, ids) && Represents(next, prev, ids') && n <= |ids| + 1
    ensures n <= |ids'| + 1 && forall i :: 0 <= i <= n ==> NodeAt(ids, i) == NodeAt(ids', i)
  {
    if n > 0 {
      SameIds(next, prev, ids, ids', n - 1);
      assert next[NodeAt(ids, n - 1)] == NodeAt(ids, n);
      assert next[NodeAt(ids', n - 1)] == NodeAt(ids', n);
    }
  }

  lemma OneSequence(next: map<Node, Node>, prev: map<Node, Node>, ids: seq<Id>, ids': seq<Id>)
    requires Represents(next, prev, ids) && Represents(next, prev, ids')
    ensures ids == ids'
  {
    SameIds(next, prev, ids, ids', |ids| + 1);
    SameIds(next, prev, ids', ids, |ids'| + 1);
    forall i | 0 <= i < |ids| ensures ids[i] == ids'[i] { assert NodeAt(ids, i + 1) == NodeAt(ids', i + 1); }
  }

  lemma OneRing(next: map<Node, Node>, prev: map<Node, Node>, next': map<Node, Node>, prev': map<Node, Node>,
      ids: seq<Id>)
    requires Represents(next, prev, ids) && Represents(next', prev', ids)
    ensures next == next' && prev == prev'
  {
    forall x | x in next ensures next[x] == next'[x] {
      var i := IndexOf(ids, x);
      assert next[NodeAt(ids, i)] == NodeAt(ids, i + 1);
    }
    forall x | x in prev ensures prev[x] == prev'[x] {
      var i := IndexOf(ids, x);
      if i == 0 { i := |ids| + 1; }
      assert prev[NodeAt(ids, i - 1 + 1)] == NodeAt(ids, i - 1);
    }
  }

  class UpvalRing {
    var next: map<Node, Node>
    var prev: map<Node, Node>
    ghost var ids: seq<Id>

    ghost predicate Valid()
      reads this
    {
      Represents(next, prev, ids)
    }

    /** The empty ring of lua_newstate. */
    constructor ()
      ensures Valid() && ids == []
    {
      next, prev, ids := map[Head := Head], map[Head := Head], [];
    }

    /** What luaF_findupval does with a new open upvalue. */
    method Link(uv: Id)
      requires Valid() && uv !in ids
      modifies this
      ensures Valid() && ids == [uv] + old(ids)
    {
      ghost var l := ids;
      assert next[NodeAt(l, 0)] == NodeAt(l, 1);
      prev := prev[Uv(uv) := Head];
      next := next[Uv(uv) := next[Head]];
      prev := prev[next[Uv(uv)] := Uv(uv)];
      next := next[Head := Uv(uv)];
      ids := [uv] + ids;
      LinkedNext(old(next), old(prev), l, uv);
      LinkedPrev(old(next), old(prev), l, uv);
    }

    /** unlinkupval; the upvalue is closed or freed after it. */
    method Unlink(uv: Id)
      requires Valid() && uv in ids
      modifies this
      ensures Valid() && ids == Without(old(ids), {uv})
    {
      ghost var k := IndexOf(ids, Uv(uv));
      assert next[NodeAt(ids, k)] == NodeAt(ids, k + 1) && prev[NodeAt(ids, k - 1 + 1)] == NodeAt(ids, k - 1);
      prev := prev[next[Uv(uv)] := prev[Uv(uv)]];
      next := next[prev[Uv(uv)] := next[Uv(uv)]];
      next, prev := next - {Uv(uv)}, prev - {Uv(uv)};
      ids := ids[..k - 1] + ids[k..];
      Unlinked(old(next), old(prev), old(ids), k);
      WithoutOne(old(ids), k - 1);
    }

    /** The walk of remarkupvals: from the head, until it is the head again. */
    method Walk() returns (seen: seq<Id>)
      requires Valid()
      ensures seen == ids
    {
      seen := [];
      assert next[NodeAt(ids, 0)] == NodeAt(ids, 1);
      var uv := next[Head];
      while uv.Uv?
        invariant |seen| <= |ids| && seen == ids[..|seen|] && uv == NodeAt(ids, |seen| + 1)
        decreases |ids| - |seen|
      {
        assert next[NodeAt(ids, |seen| + 1)] == NodeAt(ids, |seen| + 2);
        seen := seen + [uv.id];
        uv := next[uv];
      }
    }

    /** Linking and unlinking again gives the references back as they were. */
    method LinkUnlink(uv: Id)
      requires Valid() && uv !in ids
      modifies this
      ensures Valid() && next == old(next) && prev == old(prev)
    {
      Link(uv);
      Unlink(uv);
      WithoutOne([uv] + old(ids), 0);
      assert ids == old(ids);
      OneRing(next, prev, old(next), old(prev), ids);
    }
  }

  lemma {:induction false} WithoutOne(ids: seq<Id>, k: nat)
    requires Distinct(ids) && k < |ids|
    ensures Without(ids, {ids[k]}) == ids[..k] + ids[k + 1..]
  {
    if k == 0 {
      WithoutNone(ids[1..], {ids[0]});
    } else {
      assert ids[1..][k - 1] == ids[k];
      WithoutOne(ids[1..], k - 1);
      assert ids[..k] == [ids[0]] + ids[1..][..k - 1] && ids[1..][k..] == ids[k + 1..];
    }
  }

  lemma LinkedNext(next: map<Node, Node>, prev: map<Node, Node>, ids: seq<Id>, uv: Id)
    requires Represents(next, prev, ids) && uv !in ids
    ensures var l, next' := [uv] + ids, next[Uv(uv) := next[Head]][Head := Uv(uv)];
      && Distinct(l) && (forall x :: x in next' <==> OnRing(l, x))
      && forall i :: 0 <= i <= |l| ==> next'[NodeAt(l, i)] == NodeAt(l, i + 1)
  {
    var l, next' := [uv] + ids, next[Uv(uv) := next[Head]][Head := Uv(uv)];
    assert next[NodeAt(ids, 0)] == NodeAt(ids, 1);
    assert forall x :: x in next' <==> OnRing(l, x);
    forall i | 0 <= i <= |l| ensures next'[NodeAt(l, i)] == NodeAt(l, i + 1) {
      if i >= 2 { assert next[NodeAt(ids, i - 1)] == NodeAt(ids, i); }
    }
  }

  lemma LinkedPrev(next: map<Node, Node>, prev: map<Node, Node>, ids: seq<Id>, uv: Id)
    requires Represents(next, prev, ids) && uv !in ids
    ensures var l, prev' := [uv] + ids, prev[Uv(uv) := Head][next[Head] := Uv(uv)];
      && (forall x :: x in prev' <==> OnRing(l, x))
      && forall i :: 0 <= i <= |l| ==> prev'[NodeAt(l, i + 1)] == NodeAt(l, i)
  {
    var l, prev' := [uv] + ids, prev[Uv(uv) := Head][next[Head] := Uv(uv)];
    assert next[NodeAt(ids, 0)] == NodeAt(ids, 1);
    assert OnRing(ids, NodeAt(ids, 1));
    assert forall x :: x in prev' <==> OnRing(l, x);
    forall i | 0 <= i <= |l| ensures prev'[NodeAt(l, i + 1)] == NodeAt(l, i) {
      if i >= 2 { assert prev[NodeAt(ids, i - 1 + 1)] == NodeAt(ids, i - 1); }
      assert NodeAt(l, i + 1) == if i == 0 then Uv(uv) else NodeAt(ids, i);
    }
  }

  lemma Unlinked(next: map<Node, Node>, prev: map<Node, Node>, ids: seq<Id>, k: nat)
    requires Represents(next, prev, ids) && 0 < k <= |ids|
    ensures var l, uv := ids[..k - 1] + ids[k..], NodeAt(ids, k);
      Represents(next[NodeAt(ids, k - 1) := NodeAt(ids, k + 1)] - {uv},
        prev[NodeAt(ids, k + 1) := NodeAt(ids, k - 1)] - {uv}, l)
  {
    var l, uv := ids[..k - 1] + ids[k..], NodeAt(ids, k);
    var next' := next[NodeAt(ids, k - 1) := NodeAt(ids, k + 1)] - {uv};
    var prev' := prev[NodeAt(ids, k + 1) := NodeAt(ids, k - 1)] - {uv};
    assert forall i :: 0 <= i <= |l| + 1 ==> NodeAt(l, i) == NodeAt(ids, if i < k then i else i + 1);
    forall x ensures OnRing(l, x) <==> OnRing(ids, x) && x != uv { RestOf(ids, k, x); }
    forall i | 0 <= i <= |l| ensures next'[NodeAt(l, i)] == NodeAt(l, i + 1) {
      var j := if i < k then i else i + 1;
      assert next[NodeAt(ids, j)] == NodeAt(ids, j + 1);
    }
    forall i | 0 <= i <= |l| ensures prev'[NodeAt(l, i + 1)] == NodeAt(l, i) {
      var j := if i + 1 < k then i else i + 1;
      assert prev[NodeAt(ids, j + 1)] == NodeAt(ids, j);
    }
  }

  lemma RestOf(ids: seq<Id>, k: nat, x: Node)
    requires Distinct(ids) && 0 < k <= |ids|
    ensures OnRing(ids[..k - 1] + ids[k..], x) <==> OnRing(ids, x) && x != NodeAt(ids, k)
  {
    var l := ids[..k - 1] + ids[k..];
    if x.Uv? && x.id in ids && x.id != ids[k - 1] {
      var j :| 0 <= j < |ids| && ids[j] == x.id;
      assert l[if j < k - 1 then j else j - 1] == x.id;
    }
  }
}

/** A thread's stack moves to other memory, and every pointer into it is corrected (ldo.c). A
    pointer is an address here; elsewhere in this project it is a position in the stack. */
module StackMove {
  import opened Base

  type Value = int

  const EXTRA_STACK := 5

  /** A call, with its pointers into the stack. */
  datatype CallInfo = CallInfo(base: int, func: int, top: int)

  /** What can be seen of a thread: its pointers by their position in the stack. */
  datatype View = View(top: int, base: int, calls: seq<CallInfo>, cells: seq<int>)

  function Offset(c: CallInfo, stack: int): CallInfo { CallInfo(c.base - stack, c.func - stack, c.top - stack) }

  function Offsets(calls: seq<CallInfo>, stack: int): (r: seq<CallInfo>)
    ensures |r| == |calls| && forall i :: 0 <= i < |r| ==> r[i] == Offset(calls[i], stack)
  {
    seq(|calls|, i requires 0 <= i < |calls| => Offset(calls[i], stack))
  }

  function Positions(cells: seq<int>, stack: int): (r: seq<int>)
    ensures |r| == |cells| && forall i :: 0 <= i < |r| ==> r[i] == cells[i] - stack
  {
    seq(|cells|, i requires 0 <= i < |cells| => cells[i] - stack)
  }

  /** Every position of a view lies below `size`. */
  predicate Below(v: View, size: nat)
  {
    && 0 <= v.top < size && 0 <= v.base < size && (forall i :: 0 <= i < |v.cells| ==> 0 <= v.cells[i] < size)
    && forall i :: 0 <= i < |v.calls| ==>
       0 <= v.calls[i].base < size && 0 <= v.calls[i].func < size && 0 <= v.calls[i].top < size
  }

  class Thread {
    /** The address of the stack, and what is there. */
    var stack: int
    var slots: seq<Value>
    var stacklast: int
    var top: int
    var base: int
    var calls: seq<CallInfo>
    /** Where the open upvalues point to, in the order of their list. */
    var openupval: seq<int>

    constructor (stack: int, slots: seq<Value>)
      requires |slots| > EXTRA_STACK
      ensures Valid() && this.stack == stack && this.slots == slots && openupval == [] && calls == []
    {
      this.stack, this.slots, stacklast := stack, slots, stack + |slots| - EXTRA_STACK - 1;
      top, base, calls, openupval := stack, stack, [], [];
    }

    function Seen(): View
      reads this
    {
      View(top - stack, base - stack, Offsets(calls, stack), Positions(openupval, stack))
    }

    /** No pointer leads out of the stack. */
    ghost predicate Valid()
      reads this
    {
      Below(Seen(), |slots|) && stacklast == stack + |slots| - EXTRA_STACK - 1
    }

    /** The value an open upvalue shows. */
    function Shown(i: nat): Value
      requires i < |openupval| && 0 <= openupval[i] - stack < |slots|
      reads this
    {
      slots[openupval[i] - stack]
    }

    /** correctstack. */
    method CorrectStack(oldstack: int)
      modifies this`top, this`base, this`calls, this`openupval
      ensures top - stack == old(top) - oldstack && base - stack == old(base) - oldstack
      ensures Positions(openupval, stack) == Positions(old(openupval), oldstack)
      ensures Offsets(calls, stack) == Offsets(old(calls), oldstack)
    {
      top := top - oldstack + stack;
      for n := 0 to |openupval|
        invariant top == old(top) - oldstack + stack && base == old(base) && calls == old(calls)
        invariant |openupval| == |old(openupval)|
        invariant forall i :: 0 <= i < |openupval| ==>
          openupval[i] == if i < n then old(openupval)[i] - oldstack + stack else old(openupval)[i]
      {
        openupval := openupval[n := openupval[n] - oldstack + stack];
      }
      ghost var cells := openupval;
      for n := 0 to |calls|
        invariant top == old(top) - oldstack + stack && base == old(base) && openupval == cells
        invariant |calls| == |old(calls)|
        invariant forall i :: 0 <= i < n ==> Offset(calls[i], stack) == Offset(old(calls)[i], oldstack)
        invariant forall i :: n <= i < |calls| ==> calls[i] == old(calls)[i]
      {
        var ci := calls[n];
        calls := calls[n := CallInfo(ci.base - oldstack + stack, ci.func - oldstack + stack,
          ci.top - oldstack + stack)];
      }
      base := base - oldstack + stack;
    }

    /** luaD_reallocstack, to wherever the allocator puts the stack: every pointer stays on its
        slot, every slot that is left keeps its value, and so does every open upvalue. */
    method ReallocStack(newsize: nat, to: int)
      requires Valid() && Below(Seen(), newsize + 1 + EXTRA_STACK)
      modifies this
      ensures Valid() && stack == to && |slots| == newsize + 1 + EXTRA_STACK && Seen() == old(Seen())
      ensures var n := Min(|slots|, |old(slots)|); slots[..n] == old(slots)[..n]
      ensures |openupval| == |old(openupval)| && forall i: nat :: i < |openupval| ==> Shown(i) == old(Shown(i))
    {
      var oldstack := stack;
      var realsize := newsize + 1 + EXTRA_STACK;
      ghost var n := Min(realsize, |slots|);
      stack, slots := to, if realsize <= |slots| then slots[..realsize] else slots + seq(realsize - |slots|, _ => 0);
      assert slots[..n] == old(slots)[..n];
      stacklast := stack + newsize;
      CorrectStack(oldstack);
      forall i: nat | i < |openupval| ensures Shown(i) == old(Shown(i)) {
        var p := Seen().cells[i];
        assert p == old(Seen()).cells[i] && slots[p] == slots[..n][p] == old(slots)[..n][p];
      }
    }

    /** luaD_growstack. */
    method GrowStack(n: nat, to: int)
      requires Valid()
      modifies this
      ensures Valid() && stack == to && |slots| >= |old(slots)| + n && Seen() == old(Seen()) && old(slots) <= slots
      ensures |openupval| == |old(openupval)| && forall i: nat :: i < |openupval| ==> Shown(i) == old(Shown(i))
    {
      if n <= |slots| { ReallocStack(2 * |slots|, to); } else { ReallocStack(|slots| + n, to); }
      assert old(slots)[..|old(slots)|] == old(slots);
    }
  }
}

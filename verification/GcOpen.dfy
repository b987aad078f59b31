/** The state a program starts from (lstate.c), and what of it lasts. */
module GcOpen {
  import opened Base
  import opened GcHeap
  import opened GcInvariant
  import opened GcUpval
  import opened GcStrings
  import opened GcAlloc
  import opened GcRun

  /** What lua_newstate and the first half of f_luaopen set up: the main thread 0 with the table of
      globals 1 and the stack entry of its first call, the registry 2, and an empty string table. */
  function InitialState(nmt: nat): State
  {
    State(map[0 := Obj(Thread, White(false), true, [Some(1), None], None, [], []),
              1 := Obj(Table, White(false), false, [], None, [], []),
              2 := Obj(Table, White(false), false, [], None, [], [])],
          [2, 1, 0], seq(MINSTRTABSIZE, _ => []), [], false, Pause, [], [], 0, 0, 0, 0, 2, seq(nmt, _ => None))
  }

  lemma InitialInv(nmt: nat)
    ensures Inv(InitialState(nmt))
  {
    hide StringTable, Upvals, AliveClosed, Edge, Kinds, RootList;
    InitialShape(nmt);
    InitialEdges(nmt);
    InitialLists(nmt);
  }

  lemma InitialShape(nmt: nat)
    ensures RootList(InitialState(nmt)) && Kinds(InitialState(nmt))
  {
    var s := InitialState(nmt);
    assert forall o :: o in s.heap ==> o == 0 || o == 1 || o == 2;
  }

  lemma InitialEdges(nmt: nat)
    ensures AliveClosed(InitialState(nmt))
  {
    var s := InitialState(nmt);
    assert forall o, c :: Edge(s.heap, o, c) ==> o == 0 && c == 1;
  }

  lemma InitialLists(nmt: nat)
    ensures var s := InitialState(nmt); StringTable(s.heap, s.strt) && Upvals(s.heap, s.uvhead)
  {
    var s := InitialState(nmt);
    assert forall o :: !IsOpen(s.heap, o);
    assert forall o, th :: !OpenOn(s.heap, o, th);
  }

  /** luaS_fix of the string with these bytes. */
  ghost function FixName(s: State, bytes: seq<bv8>, ts: Id): (r: State)
    requires Inv(s) && ts !in s.heap
    ensures Inv(r) && r.heap.Keys <= s.heap.Keys + {ts}
  {
    ShapeFacts(s);
    var (s1, o) := Intern(s, bytes, ts);
    FixNameFacts(s, bytes, ts);
    Do(s1, FixString(o))
  }

  lemma FixNameFacts(s: State, bytes: seq<bv8>, ts: Id)
    requires Inv(s) && ts !in s.heap
    ensures |s.strt| > 0
    ensures var (s1, o) := Intern(s, bytes, ts); Inv(s1) && Enabled(s1, FixString(o)) && s1.heap[o].bytes == bytes
    ensures var (s1, o) := Intern(s, bytes, ts); Inv(Do(s1, FixString(o)))
    ensures var (s1, o) := Intern(s, bytes, ts); s1.heap.Keys <= s.heap.Keys + {ts}
  {
    hide Inv, StringTable, Reachable, Do, Intern;
    InternKeepsInv(s, bytes, ts);
    InternString(s, bytes, ts);
    var (s1, o) := Intern(s, bytes, ts);
    DoKeepsInv(s1, FixString(o));
  }

  lemma InternString(s: State, bytes: seq<bv8>, ts: Id)
    requires Inv(s) && ts !in s.heap
    ensures |s.strt| > 0
    ensures var (s1, o) := Intern(s, bytes, ts);
      && o in s1.heap && s1.heap[o].kind.String? && s1.heap[o].bytes == bytes && s1.heap.Keys <= s.heap.Keys + {ts}
  {
    assert StringTable(s.heap, s.strt);
    hide Inv;
    InternUnique(s, bytes, ts);
    hide StringTable;
  }

  /** luaT_init and luaX_init: the names are interned and fixed one after the other, in memory from
      `next` on. */
  ghost function FixNames(s: State, names: seq<seq<bv8>>, next: Id): State
    requires Inv(s) && forall o :: o in s.heap ==> o < next
    decreases |names|
  {
    if names == [] then s
    else
      FixNames(FixName(s, names[0], next), names[1..], next + 1)
  }

  ghost predicate Holds(s: State, name: seq<bv8>, o: Id)
  {
    o in s.heap && s.heap[o].kind.String? && s.heap[o].bytes == name && s.heap[o].fixed
  }

  /** That is a run of the program, and then all the names are there. */
  lemma {:induction false} NamesFixed(s: State, names: seq<seq<bv8>>, next: Id) returns (acts: seq<Action>)
    requires Inv(s) && forall o :: o in s.heap ==> o < next
    ensures Run(s, acts) == FixNames(s, names, next)
    ensures forall name :: name in names ==> exists o :: Holds(FixNames(s, names, next), name, o)
    decreases |names|
  {
    hide Inv, Intern, Do, Enabled;
    if names == [] {
      acts := [];
    } else {
      var fix, s' := FixNameSteps(s, names[0], next);
      var rest := NamesFixed(s', names[1..], next + 1);
      acts := [NewString(next, names[0]), FixString(fix)] + rest;
      TwoSteps(s, acts, s', rest);
      FixedStays(s', rest);
      assert FixNames(s, names, next) == FixNames(s', names[1..], next + 1);
      forall name | name in names ensures exists o :: Holds(FixNames(s, names, next), name, o) {
        if name == names[0] {
          assert Holds(FixNames(s, names, next), name, fix);
        } else {
          assert name in names[1..];
        }
      }
    }
  }

  lemma FixNameSteps(s: State, name: seq<bv8>, next: Id) returns (fix: Id, s': State)
    requires Inv(s) && forall o :: o in s.heap ==> o < next
    ensures s' == FixName(s, name, next) && Inv(s') && (forall o :: o in s'.heap ==> o < next + 1)
    ensures Enabled(s, NewString(next, name)) && Inv(Do(s, NewString(next, name)))
    ensures var s1 := Do(s, NewString(next, name)); Enabled(s1, FixString(fix)) && s' == Do(s1, FixString(fix))
    ensures Holds(s', name, fix)
  {
    hide Inv, Intern;
    FixNameFacts(s, name, next);
    fix, s' := Intern(s, name, next).1, FixName(s, name, next);
  }

  lemma TwoSteps(s: State, acts: seq<Action>, s': State, rest: seq<Action>)
    requires Inv(s) && |acts| >= 2 && acts[2..] == rest && Enabled(s, acts[0]) && Inv(Do(s, acts[0]))
    requires Enabled(Do(s, acts[0]), acts[1]) && s' == Do(Do(s, acts[0]), acts[1]) && Inv(s')
    ensures Run(s, acts) == Run(s', rest)
  {
    hide Inv, Enabled, Do;
    var s1 := Do(s, acts[0]);
    assert Run(s, acts) == Run(s1, acts[1..]);
    assert acts[1..][1..] == rest;
    assert Run(s1, acts[1..]) == Run(s', rest);
  }

  /** luaT_eventname, the reserved words of luaX_tokens and MEMERRMSG. */
  const EVENT_NAMES := ["__index", "__newindex", "__gc", "__mode", "__eq", "__add", "__sub", "__mul", "__div", "__mod",
    "__pow", "__unm", "__len", "__lt", "__le", "__concat", "__call"]

  const RESERVED_WORDS := ["and", "break", "do", "else", "elseif", "end", "false", "for", "function", "if", "in",
    "local", "nil", "not", "or", "repeat", "return", "then", "true", "until", "while"]

  const MEMERRMSG := "not enough memory"

  function Bytes(name: string): seq<bv8>
  {
    seq(|name|, i requires 0 <= i < |name| => (name[i] as int % 256) as bv8)
  }

  function FixedNames(): seq<string> { EVENT_NAMES + RESERVED_WORDS + [MEMERRMSG] }

  function AllBytes(names: seq<string>): seq<seq<bv8>>
  {
    seq(|names|, i requires 0 <= i < |names| => Bytes(names[i]))
  }

  /** The state lua_newstate returns. */
  ghost function NewState(nmt: nat): State
  {
    InitialInv(nmt);
    FixNames(InitialState(nmt), AllBytes(FixedNames()), 3)
  }

  /** It is reached by a run, so it has the invariant and everything proved of runs holds from it. */
  lemma NewStateReached(nmt: nat) returns (acts: seq<Action>)
    ensures Inv(InitialState(nmt)) && NewState(nmt) == Run(InitialState(nmt), acts) && Inv(NewState(nmt))
  {
    hide Inv, FixNames;
    InitialInv(nmt);
    acts := NamesFixed(InitialState(nmt), AllBytes(FixedNames()), 3);
  }

  /** In every run of every program, the names of the events, the reserved words and the message
      for lack of memory are there, each as one string that is never collected. */
  lemma NamesNeverCollected(nmt: nat, acts: seq<Action>, name: string) returns (o: Id)
    requires name in FixedNames()
    ensures Inv(NewState(nmt)) && Holds(NewState(nmt), Bytes(name), o)
    ensures Holds(Run(NewState(nmt), acts), Bytes(name), o)
  {
    hide Inv, FixNames, Run;
    InitialInv(nmt);
    var names := AllBytes(FixedNames());
    var i :| 0 <= i < |FixedNames()| && FixedNames()[i] == name;
    assert names[i] == Bytes(name) && names[i] in names;
    var _ := NewStateReached(nmt);
    var _ := NamesFixed(InitialState(nmt), names, 3);
    o :| Holds(NewState(nmt), Bytes(name), o);
    FixedStays(NewState(nmt), acts);
  }
}

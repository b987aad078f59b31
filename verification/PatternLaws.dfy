/** What simple patterns find, read off their text: the classes written out as ranges of characters, sets, and the
    four suffixes (section 5.4.1 of the Lua 5.1 manual). */
module PatternLaws {
  import opened Base
  import opened Pattern
  import opened PatternMatch
  import opened PatternFind

  predicate Letter(c: int) { 65 <= c <= 90 || 97 <= c <= 122 }

  predicate Control(c: int) { 0 <= c <= 31 || c == 127 }

  predicate Digit(c: int) { 48 <= c <= 57 }

  predicate Small(c: int) { 97 <= c <= 122 }

  predicate Punctuation(c: int) { 33 <= c <= 47 || 58 <= c <= 64 || 91 <= c <= 96 || 123 <= c <= 126 }

  predicate Space(c: int) { 9 <= c <= 13 || c == 32 }

  predicate Capital(c: int) { 65 <= c <= 90 }

  predicate Hexadecimal(c: int) { 48 <= c <= 57 || 65 <= c <= 70 || 97 <= c <= 102 }

  /** The characters of a class, by their codes. */
  predicate Belongs(c: int, cl: char)
  {
    match cl
    case 'a' => Letter(c)
    case 'c' => Control(c)
    case 'd' => Digit(c)
    case 'l' => Small(c)
    case 'p' => Punctuation(c)
    case 's' => Space(c)
    case 'u' => Capital(c)
    case 'w' => Letter(c) || Digit(c)
    case 'x' => Hexadecimal(c)
    case 'z' => c == 0
    case 'A' => !Letter(c)
    case 'C' => !Control(c)
    case 'D' => !Digit(c)
    case 'L' => !Small(c)
    case 'P' => !Punctuation(c)
    case 'S' => !Space(c)
    case 'U' => !Capital(c)
    case 'W' => !(Letter(c) || Digit(c))
    case 'X' => !Hexadecimal(c)
    case 'Z' => c != 0
    case _ => c == cl as int
  }

  /** A letter after `%` names these characters, a capital letter the others, and any other character itself. */
  lemma ClassWritten(c: char, cl: char)
    ensures MatchClass(c, cl) <==> Belongs(c as int, cl)
  {
  }

  /** The members of a set. */
  datatype Member = Lone(c: char) | Range(lo: char, hi: char) | Named(cl: char)

  /** The single character classes. */
  datatype Class = Any | Itself(c: char) | Escaped(cl: char) | Set(negated: bool, members: seq<Member>)

  function MemberText(m: Member): string
  {
    match m
    case Lone(c) => [c]
    case Range(lo, hi) => [lo, '-', hi]
    case Named(cl) => ['%', cl]
  }

  function MembersText(ms: seq<Member>): string
  {
    if ms == [] then "" else MemberText(ms[0]) + MembersText(ms[1..])
  }

  function ClassText(k: Class): string
  {
    match k
    case Any => "."
    case Itself(c) => [c]
    case Escaped(cl) => ['%', cl]
    case Set(negated, members) => (if negated then "[^" else "[") + MembersText(members) + "]"
  }

  predicate Holds(m: Member, c: char)
  {
    match m
    case Lone(d) => c == d
    case Range(lo, hi) => lo <= c <= hi
    case Named(cl) => Belongs(c as int, cl)
  }

  predicate Contains(k: Class, c: char)
  {
    match k
    case Any => true
    case Itself(d) => c == d
    case Escaped(cl) => Belongs(c as int, cl)
    case Set(negated, members) => negated != exists j :: 0 <= j < |members| && Holds(members[j], c)
  }

  /** The characters that mean something in a set. */
  const SET_SPECIALS := "^]-%"

  predicate ProperMember(m: Member)
  {
    match m
    case Lone(c) => c !in SET_SPECIALS
    case Range(lo, hi) => lo !in SET_SPECIALS && hi !in SET_SPECIALS
    case Named(_) => true
  }

  predicate ProperMembers(ms: seq<Member>) { forall j :: 0 <= j < |ms| ==> ProperMember(ms[j]) }

  /** The class can be written: `%b`, `%f` and `%1` are items of their own. */
  predicate Proper(k: Class)
  {
    match k
    case Any => true
    case Itself(c) => c !in SPECIALS && c != ')'
    case Escaped(cl) => cl != 'b' && cl != 'f' && !('0' <= cl <= '9')
    case Set(_, members) => members != [] && ProperMembers(members)
  }

  function Suffix(rep: Rep): string
  {
    match rep
    case One => ""
    case Optional => "?"
    case Star => "*"
    case Plus => "+"
    case Lazy => "-"
  }

  const SUFFIXES := "?*+-"

  function ItemText(k: Class, rep: Rep): string { ClassText(k) + Suffix(rep) }

  lemma FirstOfMember(ms: seq<Member>)
    requires ms != [] && ProperMember(ms[0])
    ensures |MembersText(ms)| > 0 && MembersText(ms)[0] !in "^]-"
  {
  }

  /** The members of a set are read one by one. */
  lemma MemberFirst(p: string, i: nat, ms: seq<Member>)
    requires ms != [] && ProperMembers(ms) && Written(p, i, MembersText(ms) + "]")
    ensures var t := MemberText(ms[0]);
      && Written(p, i, t) && Written(p, i + |t|, MembersText(ms[1..]) + "]")
      && |MembersText(ms)| == |t| + |MembersText(ms[1..])| && ProperMember(ms[0]) && ProperMembers(ms[1..])
      && At(p, i + |t|) != '-' && (At(p, i + |t|) == ']' <==> |ms| == 1)
  {
    hide Written, MemberText;
    var t, rest := MemberText(ms[0]), MembersText(ms[1..]) + "]";
    assert MembersText(ms) + "]" == t + rest;
    WrittenParts(p, i, t, rest);
    WrittenChar(p, i + |t|, rest, 0);
    if |ms| > 1 { FirstOfMember(ms[1..]); }
  }

  lemma {:induction false} SetReads(p: string, i: nat, ms: seq<Member>)
    requires ms != [] && ProperMembers(ms) && Written(p, i, MembersText(ms) + "]")
    ensures SetEnd(p, i) == Some(i + |MembersText(ms)| + 1)
    decreases |ms|
  {
    hide Written, MemberText, ProperMember, ProperMembers, SetEnd;
    MemberFirst(p, i, ms);
    MemberSkipped(p, i, ms[0]);
    if |ms| > 1 { SetReads(p, i + |MemberText(ms[0])|, ms[1..]); }
  }

  lemma MemberSkipped(p: string, i: nat, m: Member)
    requires ProperMember(m) && Written(p, i, MemberText(m))
    ensures SetEnd(p, i) == if At(p, i + |MemberText(m)|) == ']' then Some(i + |MemberText(m)| + 1)
      else SetEnd(p, i + |MemberText(m)|)
  {
    var t := MemberText(m);
    forall j | 0 <= j < |t| ensures p[i + j] == t[j] { WrittenChar(p, i, t, j); }
    if m.Range? {
      assert At(p, i + 1) == '-' && At(p, i + 2) == m.hi;
      assert SetEnd(p, i) == SetEnd(p, i + 1) == SetEnd(p, i + 2);
    }
  }

  lemma {:induction false} SetMeans(c: char, p: string, i: nat, ms: seq<Member>)
    requires ProperMembers(ms) && Written(p, i, MembersText(ms) + "]")
    ensures InSet(c, p, i, i + |MembersText(ms)|) <==> exists j :: 0 <= j < |ms| && Holds(ms[j], c)
    decreases |ms|
  {
    hide Written, MemberText, ProperMember, ProperMembers, Holds;
    if ms != [] {
      MemberFirst(p, i, ms);
      SetMeansNext(c, p, i, ms);
      SetMeans(c, p, i + |MemberText(ms[0])|, ms[1..]);
      SomeHolds(ms, c);
    }
  }

  lemma SetMeansNext(c: char, p: string, i: nat, ms: seq<Member>)
    requires ms != [] && ProperMembers(ms) && Written(p, i, MembersText(ms) + "]")
    ensures var t, ec := MemberText(ms[0]), i + |MembersText(ms)|;
      InSet(c, p, i, ec) <==> Holds(ms[0], c) || InSet(c, p, i + |t|, ec)
  {
    hide Written, MemberText, ProperMember, ProperMembers, Holds, InSet;
    MemberFirst(p, i, ms);
    MemberMeans(c, p, i, ms[0], i + |MembersText(ms)|);
  }

  lemma SomeHolds(ms: seq<Member>, c: char)
    requires ms != []
    ensures (exists j :: 0 <= j < |ms| && Holds(ms[j], c)) <==>
      Holds(ms[0], c) || exists j :: 0 <= j < |ms[1..]| && Holds(ms[1..][j], c)
  {
    hide Holds;
    if j :| 0 <= j < |ms| && Holds(ms[j], c) {
      if j > 0 { assert ms[1..][j - 1] == ms[j]; }
    }
    if j :| 0 <= j < |ms[1..]| && Holds(ms[1..][j], c) { assert ms[j + 1] == ms[1..][j]; }
  }

  lemma MemberMeans(c: char, p: string, i: nat, m: Member, ec: nat)
    requires ProperMember(m) && Written(p, i, MemberText(m)) && i + |MemberText(m)| <= ec
    requires At(p, i + |MemberText(m)|) != '-'
    ensures InSet(c, p, i, ec) <==> Holds(m, c) || InSet(c, p, i + |MemberText(m)|, ec)
  {
    hide MatchClass, Belongs, Written;
    var t := MemberText(m);
    assert '-' in SET_SPECIALS && '%' in SET_SPECIALS;
    WrittenChar(p, i, t, 0);
    if |t| > 1 { WrittenChar(p, i, t, 1); }
    match m
    case Lone(_) =>
    case Range(_, _) => WrittenChar(p, i, t, 2);
    case Named(cl) => ClassWritten(c, cl);
  }

  /** An item is read as it is written, and its class has the characters it says. */
  lemma ItemReads(p: string, i: nat, k: Class, rep: Rep, c: char)
    requires Proper(k) && Written(p, i, ItemText(k, rep)) && (rep == One ==> At(p, i + |ClassText(k)|) !in SUFFIXES)
    ensures ItemAt(p, i) == (Single(i, i + |ClassText(k)|, rep), i + |ItemText(k, rep)|)
    ensures SingleMatch(c, p, i, i + |ClassText(k)|) <==> Contains(k, c)
  {
    hide SetEnd, InSet, MembersText, Contains, ItemAt, SingleMatch;
    WrittenParts(p, i, ClassText(k), Suffix(rep));
    RepReads(p, i + |ClassText(k)|, rep);
    ClassReads(p, i, k);
    ClassMeans(p, i, k, c);
  }

  lemma RepReads(p: string, ep: nat, rep: Rep)
    requires Written(p, ep, Suffix(rep)) && (rep == One ==> At(p, ep) !in SUFFIXES)
    ensures RepAt(p, ep) == rep
  {
    if rep == One {
      assert '?' in SUFFIXES && '*' in SUFFIXES && '+' in SUFFIXES && '-' in SUFFIXES;
    } else {
      WrittenChar(p, ep, Suffix(rep), 0);
    }
  }

  lemma ClassReads(p: string, i: nat, k: Class)
    requires Proper(k) && Written(p, i, ClassText(k))
    ensures i < |p| && ClassEnd(p, i) == Some(i + |ClassText(k)|) && ItemAt(p, i) == SingleAt(p, i)
  {
    hide SingleAt, MembersText;
    var t := ClassText(k);
    WrittenChar(p, i, t, 0);
    if k.Itself? { NotSpecial(k.c); }
    if k.Escaped? { WrittenChar(p, i, t, 1); }
    if k.Set? { SetRead(p, i, k.negated, k.members); }
  }

  lemma NotSpecial(c: char)
    requires c !in SPECIALS
    ensures c != '(' && c != '%' && c != '$' && c != '[' && c != '.'
  {
    assert '(' in SPECIALS && '%' in SPECIALS && '$' in SPECIALS && '[' in SPECIALS && '.' in SPECIALS;
  }

  lemma SetRead(p: string, i: nat, negated: bool, ms: seq<Member>)
    requires Proper(Set(negated, ms)) && Written(p, i, ClassText(Set(negated, ms)))
    ensures i < |p| && p[i] == '[' && ClassEnd(p, i) == Some(i + |ClassText(Set(negated, ms))|)
    ensures (At(p, i + 1) == '^' <==> negated) && Written(p, i + (if negated then 2 else 1), MembersText(ms) + "]")
  {
    hide MembersText, ProperMember, Written, SetEnd;
    var open, rest := if negated then "[^" else "[", MembersText(ms) + "]";
    assert ClassText(Set(negated, ms)) == open + rest;
    SetOpens(p, i, negated, rest, ms);
    SetReads(p, i + |open|, ms);
  }

  lemma SetOpens(p: string, i: nat, negated: bool, rest: string, ms: seq<Member>)
    requires ms != [] && ProperMember(ms[0]) && rest == MembersText(ms) + "]"
    requires Written(p, i, (if negated then "[^" else "[") + rest)
    ensures i < |p| && p[i] == '[' && (At(p, i + 1) == '^' <==> negated)
    ensures Written(p, i + (if negated then 2 else 1), rest)
  {
    hide MembersText, Written;
    FirstOfMember(ms);
    var open := if negated then "[^" else "[";
    WrittenParts(p, i, open, rest);
    WrittenChar(p, i, open, 0);
    if negated { WrittenChar(p, i, open, 1); } else { WrittenChar(p, i + 1, rest, 0); }
  }

  lemma ClassMeans(p: string, i: nat, k: Class, c: char)
    requires Proper(k) && Written(p, i, ClassText(k))
    ensures i < |p| && (SingleMatch(c, p, i, i + |ClassText(k)|) <==> Contains(k, c))
  {
    hide MembersText, SetEnd, InSet, ClassEnd;
    var t := ClassText(k);
    WrittenChar(p, i, t, 0);
    if k.Itself? { NotSpecial(k.c); }
    if k.Escaped? {
      WrittenChar(p, i, t, 1);
      ClassWritten(c, k.cl);
    }
    if k.Set? {
      SetRead(p, i, k.negated, k.members);
      SetMeans(c, p, i + if k.negated then 2 else 1, k.members);
    }
  }

  /** The characters from `s` up to `e` are in the class, and it goes no further. */
  predicate IsRun(src: string, k: Class, s: nat, e: nat)
  {
    s <= e <= |src| && (forall j :: s <= j < e ==> Contains(k, src[j])) && (e < |src| ==> !Contains(k, src[e]))
  }

  /** No character of the class where the search may start, from `init` up to `n`. */
  predicate NoneIn(src: string, k: Class, init: nat, n: nat, anchor: bool)
    requires n <= |src|
  {
    forall j :: init <= j < n && (anchor ==> j == init) ==> !Contains(k, src[j])
  }

  /** What the manual promises of a single character class with its suffix: without one, the leftmost character of the
      class; with `+`, the longest run from there; with `*`, the longest run where the search starts, which may be
      empty; with `?`, that character if it is in the class; with `-`, nothing, and there. In brackets, what is found
      is captured. */
  predicate ItemFound(src: string, k: Class, rep: Rep, captured: bool, init: nat, anchor: bool, r: FindResult)
  {
    match r
    case NotFound => (rep == One || rep == Plus) && NoneIn(src, k, init, |src|, anchor)
    case Found(s, e, caps) =>
      && init <= s <= e <= |src| && (anchor ==> s == init) && caps == (if captured then [Text(src[s..e])] else [])
      && (match rep
          case One => e == s + 1 && Contains(k, src[s]) && NoneIn(src, k, init, s, anchor)
          case Plus => s < e && IsRun(src, k, s, e) && NoneIn(src, k, init, s, anchor)
          case Star => s == init && IsRun(src, k, s, e)
          case Optional => s == init && e == (if s < |src| && Contains(k, src[s]) then s + 1 else s)
          case Lazy => s == init && e == s)
    case _ => false
  }

  /** The pattern is one item, which may be in brackets. */
  ghost predicate IsItem(p: string, k: Class, rep: Rep, captured: bool)
  {
    var i := if captured then 1 else 0;
    && |p| > i && ItemAt(p, i) == (Single(i, i + |ClassText(k)|, rep), |p| - i) && |ClassText(k)| > 0
    && (captured ==> ItemAt(p, 0) == (Open(false), 1) && p[|p| - 1] == ')' && |p| > 2)
    && forall c :: SingleMatch(c, p, i, i + |ClassText(k)|) <==> Contains(k, c)
  }

  function PatternText(k: Class, rep: Rep, captured: bool): string
  {
    if captured then "(" + ItemText(k, rep) + ")" else ItemText(k, rep)
  }

  lemma ItemAlone(k: Class, rep: Rep, captured: bool)
    requires Proper(k)
    ensures IsItem(PatternText(k, rep, captured), k, rep, captured)
  {
    hide ClassText, Contains, Proper, ItemAt, SingleMatch;
    var p := PatternText(k, rep, captured);
    var i := if captured then 1 else 0;
    assert Written(p, i, ItemText(k, rep));
    NotSuffix();
    TextNotEmpty(k);
    if rep == One {
      assert |ItemText(k, rep)| == |ClassText(k)|;
      assert At(p, i + |ClassText(k)|) == if captured then ')' else NUL;
    }
    forall c ensures ItemAt(p, i) == (Single(i, i + |ClassText(k)|, rep), |p| - i)
      && (SingleMatch(c, p, i, i + |ClassText(k)|) <==> Contains(k, c))
    {
      ItemReads(p, i, k, rep, c);
    }
    assert SingleMatch('a', p, i, i + |ClassText(k)|) <==> Contains(k, 'a');
    if captured { Opens(p, k, rep); }
  }

  lemma Opens(p: string, k: Class, rep: Rep)
    requires Proper(k) && p == "(" + ItemText(k, rep) + ")"
    ensures p != [] && ItemAt(p, 0) == (Open(false), 1)
  {
    FirstOfText(k);
    assert p[1] == ClassText(k)[0];
  }

  lemma NotSuffix()
    ensures NUL !in SUFFIXES && ')' !in SUFFIXES
  {
  }

  lemma TextNotEmpty(k: Class)
    ensures ClassText(k) != []
  {
  }

  predicate Run(src: string, k: Class, rep: Rep, s: nat, n: nat)
  {
    Allowed(rep, n) && s + n <= |src| && forall j :: s <= j < s + n ==> Contains(k, src[j])
  }

  /** The ways to match one item: the brackets are passed once. */
  predicate IsWay(ks: seq<nat>, captured: bool)
  {
    if captured then |ks| == 3 && ks[0] == 0 && ks[2] == 0 else |ks| == 1
  }

  function Times(ks: seq<nat>, captured: bool): nat
    requires IsWay(ks, captured)
  {
    if captured then ks[1] else ks[0]
  }

  function Way(n: nat, captured: bool): (ks: seq<nat>)
    ensures IsWay(ks, captured) && Times(ks, captured) == n
  {
    if captured then [0, n, 0] else [n]
  }

  function Captures(s: nat, n: nat, captured: bool): seq<Cap> { if captured then [Cap(s, n)] else [] }

  lemma ItemFollows(src: string, p: string, k: Class, rep: Rep, captured: bool, ks: seq<nat>, s: nat)
    requires IsItem(p, k, rep, captured)
    ensures Follow(src, p, 0, ks, s, []) ==
      if IsWay(ks, captured) && Run(src, k, rep, s, Times(ks, captured))
      then Done(s + Times(ks, captured), Captures(s, Times(ks, captured), captured)) else No
  {
    hide ItemAt, SingleMatch, Contains, ClassText, Run;
    if captured {
      if ks != [] && ks[0] == 0 {
        Started(src, p, ks, s);
        if |ks| > 1 && Run(src, k, rep, s, ks[1]) {
          ItemTakes(src, p, k, rep, captured, ks[1], s, [Cap(s, CAP_UNFINISHED)]);
          assert ks[1..][1..] == ks[2..];
          Closes(src, p, ks[2..], s, s + ks[1]);
        } else if |ks| > 1 {
          ItemTakes(src, p, k, rep, captured, ks[1], s, [Cap(s, CAP_UNFINISHED)]);
        }
      }
    } else if ks != [] {
      ItemTakes(src, p, k, rep, captured, ks[0], s, []);
    }
  }

  lemma Started(src: string, p: string, ks: seq<nat>, s: nat)
    requires p != [] && ItemAt(p, 0) == (Open(false), 1) && ks != [] && ks[0] == 0
    ensures Follow(src, p, 0, ks, s, []) == Follow(src, p, 1, ks[1..], s, [Cap(s, CAP_UNFINISHED)])
  {
    hide ItemAt;
    var none: seq<Cap> := [];
    assert none + [Cap(s, CAP_UNFINISHED)] == [Cap(s, CAP_UNFINISHED)];
  }

  lemma ItemTakes(src: string, p: string, k: Class, rep: Rep, captured: bool, n: nat, s: nat, caps: seq<Cap>)
    requires IsItem(p, k, rep, captured)
    ensures var i := if captured then 1 else 0;
      Take(src, p, ItemAt(p, i).0, n, s, caps) == if Run(src, k, rep, s, n) then Done(s + n, caps) else No
  {
    hide ItemAt, SingleMatch, Contains, ClassText;
    var i := if captured then 1 else 0;
    var item := ItemAt(p, i).0;
    assert Repeats(src, p, i, item.ep, s, n) && Allowed(rep, n) <==> Run(src, k, rep, s, n);
  }

  lemma Closes(src: string, p: string, ks: seq<nat>, s: nat, e: nat)
    requires p != [] && p[|p| - 1] == ')' && s <= e
    ensures Follow(src, p, |p| - 1, ks, e, [Cap(s, CAP_UNFINISHED)]) ==
      if ks == [0] then Done(e, [Cap(s, e - s)]) else No
  {
    var caps := [Cap(s, CAP_UNFINISHED)];
    assert ItemAt(p, |p| - 1) == (Close, |p|);
    assert caps[0 := Cap(s, e - s)] == [Cap(s, e - s)];
    if ks != [] { assert ks == [0] <==> ks[0] == 0 && ks[1..] == []; }
  }

  lemma ItemOrder(p: string, k: Class, rep: Rep, captured: bool, a: nat, b: nat)
    requires IsItem(p, k, rep, captured)
    ensures Before(p, 0, Way(a, captured), Way(b, captured)) <==> a != b && if rep == Lazy then a < b else a > b
  {
    hide ItemAt, SingleMatch, Contains, ClassText;
    if captured {
      assert Way(a, true)[1..] == [a, 0] && Way(b, true)[1..] == [b, 0];
      assert [a, 0][1..] == [0] && [b, 0][1..] == [0];
      NotBefore(p, |p| - 1, [0]);
    } else {
      NotBefore(p, |p|, []);
    }
  }

  /** A match of the item, and every other match of it at that place. */
  lemma ItemFirst(src: string, p: string, k: Class, rep: Rep, captured: bool, s: nat, o: Outcome, ks: seq<nat>, n: nat)
    requires IsItem(p, k, rep, captured) && !o.No? && IsFirst(src, p, 0, s, [], o, ks)
    ensures IsWay(ks, captured)
    ensures var m := Times(ks, captured);
      && o == Done(s + m, Captures(s, m, captured)) && Run(src, k, rep, s, m)
      && (Run(src, k, rep, s, n) ==> if rep == Lazy then m <= n else n <= m)
  {
    hide IsItem, Follow, Before, Run;
    ItemFollows(src, p, k, rep, captured, ks, s);
    ItemFollows(src, p, k, rep, captured, Way(n, captured), s);
    ItemOrder(p, k, rep, captured, n, Times(ks, captured));
    assert ks == Way(Times(ks, captured), captured);
  }

  lemma ItemFails(src: string, p: string, k: Class, rep: Rep, captured: bool, s: nat, n: nat)
    requires IsItem(p, k, rep, captured) && NoMatch(src, p, 0, s, [])
    ensures !Run(src, k, rep, s, n)
  {
    hide IsItem, Follow, Run;
    ItemFollows(src, p, k, rep, captured, Way(n, captured), s);
  }

  lemma ItemFinds(src: string, p: string, k: Class, rep: Rep, captured: bool, init: nat, anchor: bool, r: FindResult)
    requires IsItem(p, k, rep, captured) && init <= |src| && Finds(src, p, init, anchor, r)
    ensures ItemFound(src, k, rep, captured, init, anchor, r)
  {
    hide IsItem, NoMatch, IsFirst, Contains, IsRun, NoneIn, Times;
    if r == NotFound {
      forall s | init <= s <= |src| && (anchor ==> s == init)
        ensures !Run(src, k, rep, s, 0) && !Run(src, k, rep, s, 1)
      {
        ItemFails(src, p, k, rep, captured, s, 0);
        ItemFails(src, p, k, rep, captured, s, 1);
      }
      assert !Run(src, k, rep, init, 0);
      NoRuns(src, k, rep, init, |src|, anchor);
    } else {
      var s: nat, o, ks :| FindsAt(src, p, init, anchor, r, s, o, ks);
      ItemFirst(src, p, k, rep, captured, s, o, ks, 0);
      var n := Times(ks, captured);
      ItemFirst(src, p, k, rep, captured, s, o, ks, 1);
      ItemFirst(src, p, k, rep, captured, s, o, ks, n + 1);
      forall s' | init <= s' < s ensures !Run(src, k, rep, s', 0) && !Run(src, k, rep, s', 1) {
        ItemFails(src, p, k, rep, captured, s', 0);
        ItemFails(src, p, k, rep, captured, s', 1);
      }
      if init < s { assert !Run(src, k, rep, init, 0); }
      NoRuns(src, k, rep, init, s, anchor);
      FirstRun(src, k, rep, s, n);
      Pushes(src, s, n, captured);
    }
  }

  lemma Pushes(src: string, s: nat, n: nat, captured: bool)
    requires s + n <= |src|
    ensures AsResult(src, s, Done(s + n, Captures(s, n, captured))) ==
      Found(s, s + n, if captured then [Text(src[s..s + n])] else [])
  {
    var caps := Captures(s, n, captured);
    assert Unclosed(caps) == 0 by { if captured { assert caps[..0] == []; } }
    assert PushAll(src, caps) == if captured then [Text(src[s..s + n])] else [];
  }

  lemma NoRuns(src: string, k: Class, rep: Rep, init: nat, n: nat, anchor: bool)
    requires n <= |src| && forall s :: init <= s < n && (anchor ==> s == init) ==> !Run(src, k, rep, s, 1)
    ensures NoneIn(src, k, init, n, anchor)
  {
    hide Contains;
    forall j | init <= j < n && (anchor ==> j == init) ensures !Contains(k, src[j]) { assert !Run(src, k, rep, j, 1); }
  }

  lemma FirstRun(src: string, k: Class, rep: Rep, s: nat, n: nat)
    requires Run(src, k, rep, s, n)
    requires Run(src, k, rep, s, 0) ==> if rep == Lazy then n <= 0 else true
    requires rep != Lazy ==> !Run(src, k, rep, s, n + 1) && (Run(src, k, rep, s, 1) ==> 1 <= n)
    ensures rep == Plus || rep == Star ==> IsRun(src, k, s, s + n)
    ensures rep == One ==> n == 1 && Contains(k, src[s])
    ensures rep == Optional ==> n == if s < |src| && Contains(k, src[s]) then 1 else 0
    ensures rep == Lazy ==> n == 0
    ensures rep == Plus ==> n > 0
  {
    hide Contains;
  }

  function Anchored(anchor: bool, p: string): string { (if anchor then "^" else "") + p }

  lemma NoNul(p: string)
    requires NUL !in p
    ensures CString(p) == p
  {
    var c := CString(p);
    assert |c| >= |p|;
  }

  lemma ItemPattern(k: Class, rep: Rep, captured: bool, anchor: bool)
    requires Proper(k) && NUL !in ClassText(k)
    ensures var p := PatternText(k, rep, captured); var pattern := Anchored(anchor, p);
      && CString(p) == p && pattern != [] && (pattern[0] == '^' <==> anchor) && (anchor ==> pattern[1..] == p)
      && (!anchor ==> pattern == p)
      && (NoSpecials(pattern) ==> k.Itself? && rep == One && !captured && !anchor && p == [k.c])
  {
    hide ClassText;
    var p := PatternText(k, rep, captured);
    var pattern := Anchored(anchor, p);
    FirstOfText(k);
    NoNul(p);
    NoNul(pattern);
    assert SPECIALS[0] == '^' && SPECIALS[6] == '(';
    if anchor || captured || !k.Itself? {
      assert pattern[0] in SPECIALS;
    } else if rep != One {
      SuffixSpecial(rep);
      assert pattern[1] in SPECIALS;
    }
  }

  lemma SuffixSpecial(rep: Rep)
    requires rep != One
    ensures |Suffix(rep)| == 1 && Suffix(rep)[0] in SPECIALS
  {
    assert SPECIALS[2] == '*' && SPECIALS[3] == '+' && SPECIALS[4] == '?' && SPECIALS[9] == '-';
  }

  lemma FirstOfText(k: Class)
    requires Proper(k)
    ensures |ClassText(k)| > 0 && ClassText(k)[0] != '^' && ClassText(k)[0] != ')'
    ensures if k.Itself? then ClassText(k) == [k.c] else ClassText(k)[0] in SPECIALS
  {
    assert SPECIALS[0] == '^' && SPECIALS[5] == '.' && SPECIALS[7] == '[' && SPECIALS[8] == '%';
  }

  lemma PlainItem(src: string, c: char, init: nat, r: FindResult)
    requires init <= |src| && PlainFinds(src, [c], init, r)
    ensures ItemFound(src, Itself(c), One, false, init, false, r)
  {
    forall s: nat ensures Occurs(src, [c], s) <==> s < |src| && src[s] == c {
      if s < |src| { assert src[s..s + 1] == [src[s]]; }
    }
  }

  /** string.find on a pattern of one item, with or without brackets and anchor. */
  method FindItem(src: string, k: Class, rep: Rep, captured: bool, anchor: bool, pos: int) returns (r: FindResult)
    requires Proper(k) && NUL !in ClassText(k)
    ensures ItemFound(src, k, rep, captured, StartAt(pos, |src|), anchor, r)
  {
    hide ClassText, Contains, Finds, Proper, PlainFinds, ItemFound, IsItem, PatternText, NoSpecials, Anchored;
    ghost var p := PatternText(k, rep, captured);
    ghost var init := StartAt(pos, |src|);
    var pattern := Anchored(anchor, PatternText(k, rep, captured));
    r := StrFind(src, pattern, pos, false);
    ItemPattern(k, rep, captured, anchor);
    if NoSpecials(pattern) {
      PlainItem(src, k.c, init, r);
    } else {
      ItemAlone(k, rep, captured);
      ItemFinds(src, p, k, rep, captured, init, anchor, r);
    }
  }

  /** Empty brackets, `n` times. */
  function Brackets(n: nat): (p: string)
    ensures |p| == 2 * n && forall j :: 0 <= j < n ==> p[2 * j] == '(' && p[2 * j + 1] == ')'
  {
    if n == 0 then "" else Brackets(n - 1) + "()"
  }

  function Zeros(n: nat): seq<nat> { seq(n, _ => 0) }

  function Positions(s: nat, n: nat): seq<Cap> { seq(n, _ => Cap(s, CAP_POSITION)) }

  /** The only way through the brackets from number `j` on, which ends at the first capture above 32. */
  lemma {:induction false} BracketsFollow(src: string, n: nat, j: nat, ks: seq<nat>, s: nat)
    requires j <= n && j <= 32
    ensures Follow(src, Brackets(n), 2 * j, ks, s, Positions(s, j)) ==
      if n <= 32 then (if ks == Zeros(n - j) then Done(s, Positions(s, n)) else No)
      else if ks == Zeros(33 - j) then Raise(TooManyCaptures) else No
    decreases n - j
  {
    var p := Brackets(n);
    if j < n && ks != [] {
      assert ItemAt(p, 2 * j) == (Open(true), 2 * j + 2);
      var m := if n <= 32 then n - j else 33 - j;
      assert ks == Zeros(m) <==> ks[0] == 0 && ks[1..] == Zeros(m - 1) by {
        if ks[0] == 0 && ks[1..] == Zeros(m - 1) { assert ks == [ks[0]] + ks[1..]; }
      }
      if j < 32 {
        assert Positions(s, j) + [Cap(s, CAP_POSITION)] == Positions(s, j + 1);
        BracketsFollow(src, n, j + 1, ks[1..], s);
      } else {
        assert Zeros(0) == [];
      }
    }
  }

  /** Empty brackets capture the position where the search starts, counted from 1, up to 32 times. */
  lemma PositionFinds(src: string, n: nat, init: nat, anchor: bool, r: FindResult)
    requires init <= |src| && Finds(src, Brackets(n), init, anchor, r)
    ensures r == if n <= 32 then Found(init, init, seq(n, _ => Position(init + 1))) else Failure(TooManyCaptures)
  {
    hide Follow, Brackets;
    var p := Brackets(n);
    assert Positions(init, 0) == [];
    BracketsFollow(src, n, 0, Zeros(if n <= 32 then n else 33), init);
    assert !NoMatch(src, p, 0, init, []);
    if r != NotFound {
      var s: nat, o, ks :| FindsAt(src, p, init, anchor, r, s, o, ks);
      assert s == init;
      BracketsFollow(src, n, 0, ks, s);
      NotUnclosed(init, n);
      assert PushAll(src, Positions(init, n)) == seq(n, _ => Position(init + 1));
    }
  }

  lemma {:induction false} NotUnclosed(s: nat, n: nat)
    ensures Unclosed(Positions(s, n)) == 0
  {
    if n > 0 {
      assert Positions(s, n)[..n - 1] == Positions(s, n - 1);
      NotUnclosed(s, n - 1);
    }
  }
}

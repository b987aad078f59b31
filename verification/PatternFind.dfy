/** string.find: the search for a pattern, and the shortcut for patterns without special
    characters (lstrlib.c). */
module PatternFind {
  import opened Base
  import opened Pattern
  import opened PatternMatch

  /** What find returns for a capture: a position, counted from 1, or a text. */
  datatype Pushed = Position(pos: nat) | Text(text: string)

  /** What find returns; `Unfinished` is the error of a capture that was not closed. */
  datatype FindResult = NotFound | Found(start: nat, end: nat, caps: seq<Pushed>) | Unfinished | Failure(error: Error)

  /** push_onecapture, for a capture that is closed. */
  function PushOne(src: string, c: Cap): Pushed
  {
    if c.len == CAP_POSITION then Position(c.init + 1)
    else Text(if 0 <= c.len && c.init + c.len <= |src| then src[c.init..c.init + c.len] else [])
  }

  function PushAll(src: string, caps: seq<Cap>): seq<Pushed>
  {
    seq(|caps|, i requires 0 <= i < |caps| => PushOne(src, caps[i]))
  }

  /** The number of captures that are not closed. */
  function Unclosed(caps: seq<Cap>): nat
  {
    if caps == [] then 0 else Unclosed(caps[..|caps| - 1]) + (if caps[|caps| - 1].len == CAP_UNFINISHED then 1 else 0)
  }

  function AsResult(src: string, start: nat, r: Outcome): FindResult
  {
    match r
    case No => NotFound
    case Done(end, caps) => if Unclosed(caps) > 0 then Unfinished else Found(start, end, PushAll(src, caps))
    case Raise(error) => Failure(error)
  }

  /** push_captures, after a match. */
  method PushCaptures(ms: MatchState, start: nat, end: nat) returns (r: FindResult)
    requires ms.Valid()
    ensures r == AsResult(ms.src, start, Done(end, ms.Caps()))
  {
    var pushed := [];
    ghost var caps := ms.Caps();
    for i := 0 to ms.level
      invariant pushed == PushAll(ms.src, caps[..i]) && Unclosed(caps[..i]) == 0
    {
      var c := ms.capture[i];
      assert caps[..i + 1][..i] == caps[..i] && caps[i] == c;
      if c.len == CAP_UNFINISHED {
        MoreUnclosed(caps, i + 1);
        return Unfinished;
      }
      pushed := pushed + [PushOne(ms.src, c)];
      assert pushed == PushAll(ms.src, caps[..i + 1]);
    }
    assert caps[..ms.level] == caps;
    r := Found(start, end, pushed);
  }

  lemma {:induction false} MoreUnclosed(caps: seq<Cap>, n: nat)
    requires n <= |caps|
    ensures Unclosed(caps[..n]) <= Unclosed(caps)
    decreases |caps|
  {
    if n < |caps| {
      assert caps[..|caps| - 1][..n] == caps[..n];
      MoreUnclosed(caps[..|caps| - 1], n);
    } else {
      assert caps[..n] == caps;
    }
  }

  /** How many captures a pattern opens and does not close. */
  function Openings(p: string, i: nat): int
    decreases |p| - i
  {
    if i >= |p| then 0
    else
      var (item, next) := ItemAt(p, i);
      (match item case Open(position) => (if position then 0 else 1) case Close => -1 case _ => 0) + Openings(p, next)
  }

  lemma {:induction false} CloseOne(caps: seq<Cap>, l: nat, c: Cap)
    requires l < |caps| && caps[l].len == CAP_UNFINISHED && c.len != CAP_UNFINISHED
    ensures Unclosed(caps[l := c]) == Unclosed(caps) - 1
    decreases |caps|
  {
    var n := |caps| - 1;
    if l == n {
      assert caps[l := c][..n] == caps[..n];
    } else {
      assert caps[l := c][..n] == caps[..n][l := c];
      CloseOne(caps[..n], l, c);
    }
  }

  predicate StartedBy(caps: seq<Cap>, s: nat) { forall j :: 0 <= j < |caps| ==> caps[j].init <= s }

  /** Whatever way a match goes, it opens and closes the captures of the pattern. */
  lemma {:induction false} FollowCaptures(src: string, p: string, i: nat, ks: seq<nat>, s: nat, caps: seq<Cap>)
    requires StartedBy(caps, s) && Follow(src, p, i, ks, s, caps).Done?
    ensures Unclosed(Follow(src, p, i, ks, s, caps).caps) == Unclosed(caps) + Openings(p, i)
    decreases |ks|
  {
    hide ItemAt, Repeats, Again, InFrontier, BalanceEnd;
    if i < |p| {
      var (item, next) := ItemAt(p, i);
      TakeCaptures(src, p, item, ks[0], s, caps);
      var o := Take(src, p, item, ks[0], s, caps);
      FollowCaptures(src, p, next, ks[1..], o.end, o.caps);
    }
  }

  lemma TakeCaptures(src: string, p: string, item: Item, k: nat, s: nat, caps: seq<Cap>)
    requires (item.Single? ==> item.i < |p| && item.ep > 0) && StartedBy(caps, s)
    requires Take(src, p, item, k, s, caps).Done?
    ensures var o := Take(src, p, item, k, s, caps);
      && StartedBy(o.caps, o.end)
      && Unclosed(o.caps) == Unclosed(caps)
         + match item case Open(position) => (if position then 0 else 1) case Close => -1 case _ => 0
  {
    hide Repeats, InFrontier;
    match item
    case Open(position) =>
      var c := Cap(s, if position then CAP_POSITION else CAP_UNFINISHED);
      assert (caps + [c])[..|caps|] == caps;
    case Close =>
      var l := ToClose(caps).value;
      CloseOne(caps, l, Cap(caps[l].init, s - caps[l].init));
    case _ =>
  }

  /** So the error of a capture left open is raised for a match if and only if the pattern opens
      more captures than it closes, whatever the subject. */
  lemma UnfinishedExactly(src: string, p: string, init: nat, anchor: bool, r: FindResult)
    requires Finds(src, p, init, anchor, r)
    ensures r.Found? ==> Openings(p, 0) == 0
    ensures r.Unfinished? ==> Openings(p, 0) > 0
  {
    hide Openings;
    if r.Found? || r.Unfinished? {
      var s: nat, o, ks :| FindsAt(src, p, init, anchor, r, s, o, ks);
      FollowCaptures(src, p, 0, ks, s, []);
    }
  }

  /** The first outcome at the leftmost position that has one; with an anchor, only at `init`. */
  ghost predicate Finds(src: string, p: string, init: nat, anchor: bool, r: FindResult)
  {
    if r == NotFound then forall s :: init <= s <= |src| && (anchor ==> s == init) ==> NoMatch(src, p, 0, s, [])
    else exists s: nat, o, ks :: FindsAt(src, p, init, anchor, r, s, o, ks)
  }

  ghost predicate FindsAt(src: string, p: string, init: nat, anchor: bool, r: FindResult, s: nat, o: Outcome,
      ks: seq<nat>)
  {
    && init <= s <= |src| && (anchor ==> s == init) && !o.No? && r == AsResult(src, s, o)
    && IsFirst(src, p, 0, s, [], o, ks)
    && forall s' :: init <= s' < s ==> NoMatch(src, p, 0, s', [])
  }

  /** The loop of str_find_aux. */
  method PatternSearch(src: string, pattern: string, init: nat, anchor: bool) returns (r: FindResult)
    requires init <= |src|
    ensures Finds(src, CString(pattern), init, anchor, r)
  {
    hide NoMatch, IsFirst;
    var ms := new MatchState(src, pattern);
    var s1 := init;
    ghost var p := ms.p;
    while true
      invariant init <= s1 <= |src| && (anchor ==> s1 == init) && fresh(ms) && ms.Valid() && ms.p == p && ms.src == src
      invariant forall s :: init <= s < s1 ==> NoMatch(src, p, 0, s, [])
      decreases |src| - s1
    {
      ms.level := 0;
      assert ms.Caps() == [];
      var res, ks := ms.Match(s1, 0);
      if !res.No? {
        if res.Raise? { r := Failure(res.error); } else { r := PushCaptures(ms, s1, res.end); }
        assert FindsAt(src, p, init, anchor, r, s1, res, ks);
        return;
      }
      Nothing(src, p, s1, ks);
      if s1 == |src| || anchor { break; }
      s1 := s1 + 1;
    }
    r := NotFound;
  }

  lemma Nothing(src: string, p: string, s: nat, ks: seq<nat>)
    requires IsFirst(src, p, 0, s, [], No, ks)
    ensures NoMatch(src, p, 0, s, [])
  {
  }

  /** `t` is at position `s`. */
  predicate Occurs(src: string, t: string, s: nat) { s + |t| <= |src| && src[s..s + |t|] == t }

  /** memchr. */
  method MemChr(src: string, c: char, from: nat, len: nat) returns (r: Option<nat>)
    requires from + len <= |src|
    ensures r.Some? ==> from <= r.value < from + len && src[r.value] == c && forall i :: from <= i < r.value ==>
      src[i] != c
    ensures r.None? ==> forall i :: from <= i < from + len ==> src[i] != c
  {
    for i := from to from + len
      invariant forall j :: from <= j < i ==> src[j] != c
    {
      if src[i] == c { return Some(i); }
    }
    r := None;
  }

  /** lmemfind: the leftmost occurrence. */
  method LMemFind(src: string, init: nat, t: string) returns (r: Option<nat>)
    requires init <= |src|
    ensures r.Some? ==> init <= r.value && Occurs(src, t, r.value) && forall s :: init <= s < r.value ==>
      !Occurs(src, t, s)
    ensures r.None? ==> forall s :: init <= s ==> !Occurs(src, t, s)
  {
    if |t| == 0 { return Some(init); }
    if |t| > |src| - init { return None; }
    var l2 := |t| - 1;
    var s1, l1 := init, |src| - init - l2;
    while l1 > 0
      invariant init <= s1 && 0 <= l1 && s1 + l1 + l2 == |src|
      invariant forall s :: init <= s < s1 ==> !Occurs(src, t, s)
      decreases l1
    {
      var at := MemChr(src, t[0], s1, l1);
      if at.None? {
        forall s | init <= s ensures !Occurs(src, t, s) { NotHere(src, t, s, s1, l1); }
        return None;
      }
      forall s | s1 <= s < at.value ensures !Occurs(src, t, s) { FirstChar(src, t, s); }
      var start := at.value + 1;
      if src[start..start + l2] == t[1..] {
        assert src[at.value..at.value + |t|] == [src[at.value]] + src[start..start + l2];
        return at;
      }
      assert !Occurs(src, t, at.value) by { RestDiffers(src, t, at.value); }
      l1 := l1 - (start - s1);
      s1 := start;
    }
    r := None;
  }

  lemma FirstChar(src: string, t: string, s: nat)
    requires |t| > 0 && s < |src| && src[s] != t[0]
    ensures !Occurs(src, t, s)
  {
    if s + |t| <= |src| { assert src[s..s + |t|][0] == src[s]; }
  }

  lemma RestDiffers(src: string, t: string, s: nat)
    requires |t| > 0 && s + |t| <= |src| && src[s + 1..s + |t|] != t[1..]
    ensures !Occurs(src, t, s)
  {
    assert src[s..s + |t|][1..] == src[s + 1..s + |t|];
  }

  lemma NotHere(src: string, t: string, s: nat, s1: nat, l1: nat)
    requires |t| > 0 && s1 + l1 + |t| - 1 == |src| && forall i :: s1 <= i < s1 + l1 ==> src[i] != t[0]
    requires s < s1 ==> !Occurs(src, t, s)
    ensures !Occurs(src, t, s)
  {
    if s1 <= s < s1 + l1 { FirstChar(src, t, s); }
  }

  const SPECIALS := "^$*+?.([%-"

  /** strpbrk finds no special character in the pattern: the search is plain. */
  predicate NoSpecials(pattern: string) { forall i :: 0 <= i < |CString(pattern)| ==> pattern[i] !in SPECIALS }

  /** What the plain search finds. */
  ghost predicate PlainFinds(src: string, t: string, init: nat, r: FindResult)
  {
    match r
    case NotFound => forall s :: init <= s ==> !Occurs(src, t, s)
    case Found(s, end, caps) => init <= s && Occurs(src, t, s) && end == s + |t| && caps == []
      && forall s' :: init <= s' < s ==> !Occurs(src, t, s')
    case _ => false
  }

  /** The start of a search: a position counted from 1, or back from the end when negative; one
      outside the subject means the nearer end. */
  function StartAt(pos: int, len: nat): (init: nat)
    ensures init <= len
    ensures 1 <= pos <= len + 1 ==> init + 1 == pos
    ensures pos < 0 <= len + pos ==> init == len + pos
    ensures pos > len ==> init == len
    ensures pos == 0 || len + pos < 0 ==> init == 0
  {
    if pos == 0 || len + pos < 0 then 0 else if pos < 0 then len + pos else if pos > len then len else pos - 1
  }

  /** str_find_aux with `find`. */
  method StrFind(src: string, pattern: string, pos: int, plain: bool) returns (r: FindResult)
    ensures var init := StartAt(pos, |src|);
      if plain || NoSpecials(pattern) then PlainFinds(src, pattern, init, r)
      else var anchor := pattern != [] && pattern[0] == '^';
        Finds(src, CString(if anchor then pattern[1..] else pattern), init, anchor, r)
  {
    var init := (if pos >= 0 then pos else |src| + pos + 1) - 1;
    if init < 0 { init := 0; } else if init > |src| { init := |src|; }
    if plain || NoSpecials(pattern) {
      var at := LMemFind(src, init, pattern);
      r := if at.None? then NotFound else Found(at.value, at.value + |pattern|, []);
    } else if pattern != [] && pattern[0] == '^' {
      r := PatternSearch(src, pattern[1..], init, true);
    } else {
      r := PatternSearch(src, pattern, init, false);
    }
  }

  /** A character that stands for itself. */
  predicate IsLiteral(p: string, i: nat)
  {
    i < |p| && p[i] !in SPECIALS && p[i] != ')' && (i + 1 < |p| ==> p[i + 1] !in SPECIALS)
  }

  lemma LiteralItem(p: string, i: nat)
    requires IsLiteral(p, i)
    ensures ItemAt(p, i) == (Single(i, i + 1, One), i + 1) && p[i] != '.' && p[i] != '%' && p[i] != '['
  {
    assert '(' in SPECIALS && '%' in SPECIALS && '$' in SPECIALS && '[' in SPECIALS && '.' in SPECIALS;
    assert '?' in SPECIALS && '*' in SPECIALS && '+' in SPECIALS && '-' in SPECIALS;
    if i + 1 < |p| { assert At(p, i + 1) == p[i + 1]; }
  }

  function Ones(n: nat): seq<nat> { seq(n, _ => 1) }

  /** Once each, for `n` items. */
  predicate OnceEach(ks: seq<nat>, n: nat) { |ks| >= n && ks[..n] == Ones(n) }

  /** Literals up to `j`: the only way is once each, if they are there. */
  lemma {:induction false} LiteralFollow(src: string, p: string, i: nat, j: nat, ks: seq<nat>, s: nat, caps: seq<Cap>)
    requires i <= j <= |p| && s <= |src| && (forall k :: i <= k < j ==> IsLiteral(p, k))
    ensures !Follow(src, p, i, ks, s, caps).No? ==> OnceEach(ks, j - i) && Occurs(src, p[i..j], s)
    ensures OnceEach(ks, j - i) && Occurs(src, p[i..j], s) ==>
      Follow(src, p, i, ks, s, caps) == Follow(src, p, j, ks[j - i..], s + j - i, caps)
    decreases j - i
  {
    hide Follow, IsLiteral, OnceEach, Occurs;
    if i == j {
      NoLiteral(src, p, i, ks, s);
    } else {
      FollowLiteral(src, p, i, ks, s, caps);
      LiteralStep(src, p, i, j, ks, s);
      if ks != [] && ks[0] == 1 && s < |src| && src[s] == p[i] {
        LiteralFollow(src, p, i + 1, j, ks[1..], s + 1, caps);
        if OnceEach(ks, j - i) { Dropped(ks, j - i); }
      }
    }
  }

  lemma Dropped(ks: seq<nat>, n: nat)
    requires OnceEach(ks, n) && n > 0
    ensures |ks| >= n && ks[1..][n - 1..] == ks[n..]
  {
  }

  lemma NoLiteral(src: string, p: string, i: nat, ks: seq<nat>, s: nat)
    requires i <= |p| && s <= |src|
    ensures OnceEach(ks, 0) && Occurs(src, p[i..i], s) && ks[0..] == ks
  {
  }

  lemma LiteralStep(src: string, p: string, i: nat, j: nat, ks: seq<nat>, s: nat)
    requires i < j <= |p|
    ensures OnceEach(ks, j - i) <==> ks != [] && ks[0] == 1 && OnceEach(ks[1..], j - i - 1)
    ensures Occurs(src, p[i..j], s) <==> s < |src| && src[s] == p[i] && Occurs(src, p[i + 1..j], s + 1)
  {
    if |ks| >= j - i {
      assert ks[..j - i] == [ks[0]] + ks[1..][..j - i - 1];
      assert Ones(j - i) == [1] + Ones(j - i - 1);
    }
    if s + (j - i) <= |src| {
      assert src[s..s + (j - i)] == [src[s]] + src[s + 1..s + (j - i)];
      assert p[i..j] == [p[i]] + p[i + 1..j];
    }
  }

  lemma FollowLiteral(src: string, p: string, i: nat, ks: seq<nat>, s: nat, caps: seq<Cap>)
    requires IsLiteral(p, i)
    ensures Follow(src, p, i, ks, s, caps) ==
      if ks != [] && ks[0] == 1 && s < |src| && src[s] == p[i] then Follow(src, p, i + 1, ks[1..], s + 1, caps) else No
  {
    LiteralItem(p, i);
    hide ItemAt;
    if ks != [] && ks[0] == 1 && s < |src| {
      assert Repeats(src, p, i, i + 1, s, 1) <==> SingleMatch(src[s], p, i, i + 1);
    }
  }

  predicate AllLiteral(p: string) { forall k :: 0 <= k < |p| ==> p[k] !in SPECIALS && p[k] != ')' }

  lemma LiteralMatch(src: string, p: string, s: nat)
    requires AllLiteral(p) && s <= |src|
    ensures if Occurs(src, p, s) then IsFirst(src, p, 0, s, [], Done(s + |p|, []), Ones(|p|))
      else NoMatch(src, p, 0, s, [])
  {
    assert p[0..|p|] == p;
    forall ks ensures !Follow(src, p, 0, ks, s, []).No? ==> ks == Ones(|p|) && Occurs(src, p, s) {
      LiteralFollow(src, p, 0, |p|, ks, s, []);
      if !Follow(src, p, 0, ks, s, []).No? { assert ks == ks[..|p|] + ks[|p|..]; }
    }
    if Occurs(src, p, s) {
      LiteralFollow(src, p, 0, |p|, Ones(|p|), s, []);
      assert Ones(|p|)[..|p|] == Ones(|p|) && Ones(|p|)[|p|..] == [];
      forall b | Before(p, 0, b, Ones(|p|)) ensures Follow(src, p, 0, b, s, []) == No { NotBefore(p, 0, b); }
    }
  }

  lemma {:induction false} NotBefore(p: string, i: nat, b: seq<nat>)
    ensures !Before(p, i, b, b)
    decreases |b|
  {
    if i < |p| && b != [] { NotBefore(p, ItemAt(p, i).1, b[1..]); }
  }

  /** Without special characters, closing brackets and NULs, the plain search finds what the
      pattern finds. */
  lemma PlainAgrees(src: string, pattern: string, init: nat, r: FindResult, r': FindResult)
    requires NoSpecials(pattern) && ')' !in pattern && NUL !in pattern && init <= |src|
    requires PlainFinds(src, pattern, init, r) && Finds(src, CString(pattern), init, false, r')
    ensures r == r'
  {
    LiteralOf(pattern);
    hide CString;
    LiteralAgrees(src, pattern, init, r, r');
  }

  lemma LiteralOf(pattern: string)
    requires NoSpecials(pattern) && ')' !in pattern && NUL !in pattern
    ensures CString(pattern) == pattern && AllLiteral(pattern)
  {
  }

  lemma LiteralAgrees(src: string, p: string, init: nat, r: FindResult, r': FindResult)
    requires AllLiteral(p) && init <= |src| && PlainFinds(src, p, init, r) && Finds(src, p, init, false, r')
    ensures r == r'
  {
    hide IsFirst, NoMatch, AllLiteral, Occurs, Ones;
    if r.Found? {
      OccursBound(src, p, r.start);
      LiteralMatch(src, p, r.start);
      Both(src, p, r.start, Done(r.start + |p|, []), Ones(|p|));
    }
    if r' != NotFound {
      var s: nat, o, ks :| FindsAt(src, p, init, false, r', s, o, ks);
      LiteralMatch(src, p, s);
      Both(src, p, s, o, ks);
      FirstUnique(src, p, 0, s, [], o, ks, Done(s + |p|, []), Ones(|p|));
    }
  }

  lemma OccursBound(src: string, t: string, s: nat)
    requires Occurs(src, t, s)
    ensures s <= |src|
  {
  }

  lemma Both(src: string, p: string, s: nat, o: Outcome, ks: seq<nat>)
    requires IsFirst(src, p, 0, s, [], o, ks) && !o.No?
    ensures !NoMatch(src, p, 0, s, [])
  {
  }

  /** With a closing bracket or a NUL, there is a subject on which they differ. */
  lemma PlainDiffers(pattern: string) returns (src: string, r: FindResult, r': FindResult)
    requires NoSpecials(pattern) && (')' in pattern || NUL in pattern)
    ensures PlainFinds(src, pattern, 0, r) && Finds(src, CString(pattern), 0, false, r') && r != r'
  {
    var p := CString(pattern);
    if ')' in p {
      src, r, r' := pattern, Found(0, |pattern|, []), Failure(BadCapture);
      var j := FirstClose(p);
      CloseRaises(src, p, j);
      assert FindsAt(src, p, 0, false, r', 0, Raise(BadCapture), Ones(j) + [0]);
    } else {
      assert |p| < |pattern|;
      src, r, r' := p, NotFound, Found(0, |p|, []);
      assert Occurs(src, p, 0);
      assert AllLiteral(p);
      LiteralMatch(src, p, 0);
      assert FindsAt(src, p, 0, false, r', 0, Done(|p|, []), Ones(|p|));
    }
  }

  lemma FirstClose(p: string) returns (j: nat)
    requires ')' in p
    ensures j < |p| && p[j] == ')' && forall k :: 0 <= k < j ==> p[k] != ')'
  {
    j := 0;
    while p[j] != ')'
      invariant j < |p| && ')' in p[j..] && forall k :: 0 <= k < j ==> p[k] != ')'
      decreases |p| - j
    {
      assert p[j..] == [p[j]] + p[j + 1..];
      j := j + 1;
    }
  }

  lemma CloseRaises(src: string, p: string, j: nat)
    requires p <= src && j < |p| && p[j] == ')' && (forall k :: 0 <= k < |p| ==> p[k] !in SPECIALS)
    requires forall k :: 0 <= k < j ==> p[k] != ')'
    ensures IsFirst(src, p, 0, 0, [], Raise(BadCapture), Ones(j) + [0])
  {
    var way := Ones(j) + [0];
    assert way[..j] == Ones(j) && way[j..] == [0];
    assert Occurs(src, p[0..j], 0) by { assert src[0..j] == p[0..j]; }
    LiteralFollow(src, p, 0, j, way, 0, []);
    assert Follow(src, p, j, [0], j, []) == Raise(BadCapture);
    forall ks ensures !Follow(src, p, 0, ks, 0, []).No? ==> ks == way {
      LiteralFollow(src, p, 0, j, ks, 0, []);
      if !Follow(src, p, 0, ks, 0, []).No? {
        assert ks[j..] == [0];
        assert ks == ks[..j] + ks[j..];
      }
    }
    forall b | Before(p, 0, b, way) ensures Follow(src, p, 0, b, 0, []) == No { NotBefore(p, 0, b); }
  }
}

/** Lua patterns: their syntax, and what it means for a pattern to match (lstrlib.c). */
module Pattern {
  import opened Base

  const L_ESC := '%'

  const NUL := '\0'

  const LUA_MAXCAPTURES := 32

  const CAP_UNFINISHED := -1

  const CAP_POSITION := -2

  /** A capture: where it starts, and its length once it is closed. */
  datatype Cap = Cap(init: nat, len: int)

  datatype Error =
    EndsWithEscape | MissingBracket | Unbalanced | NoFrontierSet | BadCaptureIndex | BadCapture | TooManyCaptures

  /** Patterns are C strings: reading at the end gives NUL. */
  function At(p: string, i: nat): char { if i < |p| then p[i] else NUL }

  predicate IsLower(c: char) { 'a' <= c <= 'z' }

  predicate IsUpper(c: char) { 'A' <= c <= 'Z' }

  predicate IsAlpha(c: char) { IsLower(c) || IsUpper(c) }

  predicate IsSpace(c: char) { c == ' ' || '\t' <= c <= '\r' }

  predicate IsCntrl(c: char) { c < ' ' || c as int == 127 }

  predicate IsPunct(c: char) { ' ' < c && c as int < 127 && !IsAlpha(c) && !IsDigit(c) }

  predicate IsXDigit(c: char) { IsDigit(c) || 'a' <= c <= 'f' || 'A' <= c <= 'F' }

  function ToLower(c: char): char { if IsUpper(c) then (c as int + 32) as char else c }

  /** The classes of the C locale; None for a letter that names no class. */
  function InClass(c: char, cl: char): Option<bool>
  {
    match cl
    case 'a' => Some(IsAlpha(c))
    case 'c' => Some(IsCntrl(c))
    case 'd' => Some(IsDigit(c))
    case 'l' => Some(IsLower(c))
    case 'p' => Some(IsPunct(c))
    case 's' => Some(IsSpace(c))
    case 'u' => Some(IsUpper(c))
    case 'w' => Some(IsAlpha(c) || IsDigit(c))
    case 'x' => Some(IsXDigit(c))
    case 'z' => Some(c == NUL)
    case _ => None
  }

  /** match_class. */
  predicate MatchClass(c: char, cl: char)
  {
    var r := InClass(c, ToLower(cl));
    if r.None? then cl == c else if IsLower(cl) then r.value else !r.value
  }

  /** classend: where the single character class at `i` ends. */
  function ClassEnd(p: string, i: nat): (r: Option<nat>)
    requires i < |p|
    ensures r.Some? ==> i < r.value <= |p|
  {
    if p[i] == L_ESC then (if i + 1 < |p| then Some(i + 2) else None)
    else if p[i] == '[' then SetEnd(p, if At(p, i + 1) == '^' then i + 2 else i + 1)
    else Some(i + 1)
  }

  /** The `]` of a set is not the first character of it. */
  function SetEnd(p: string, i: nat): (r: Option<nat>)
    ensures r.Some? ==> i + 1 < r.value <= |p|
    decreases |p| - i
  {
    if i >= |p| then None
    else
      var next := if p[i] == L_ESC && i + 1 < |p| then i + 2 else i + 1;
      if At(p, next) == ']' then Some(next + 1) else SetEnd(p, next)
  }

  /** The members of a set, read from `i` up to the `]` at `ec`. */
  predicate InSet(c: char, p: string, i: nat, ec: nat)
    decreases ec - i
  {
    if i >= ec then false
    else if At(p, i) == L_ESC then MatchClass(c, At(p, i + 1)) || InSet(c, p, i + 2, ec)
    else if At(p, i + 1) == '-' && i + 2 < ec then At(p, i) <= c <= At(p, i + 2) || InSet(c, p, i + 3, ec)
    else At(p, i) == c || InSet(c, p, i + 1, ec)
  }

  /** matchbracketclass. */
  predicate BracketClass(c: char, p: string, i: nat, ec: nat)
  {
    if At(p, i + 1) == '^' then !InSet(c, p, i + 2, ec) else InSet(c, p, i + 1, ec)
  }

  /** singlematch. */
  predicate SingleMatch(c: char, p: string, i: nat, ep: nat)
    requires i < |p| && ep > 0
  {
    if p[i] == '.' then true
    else if p[i] == L_ESC then MatchClass(c, At(p, i + 1))
    else if p[i] == '[' then BracketClass(c, p, i, ep - 1)
    else p[i] == c
  }

  datatype Rep = One | Optional | Star | Plus | Lazy

  /** The items of a pattern. A malformed item is an error once the matcher comes to it. */
  datatype Item =
    | Open(position: bool)
    | Close
    | Balance(b: char, e: char)
    | Frontier(i: nat, ep: nat)
    | BackRef(c: char)
    | AtEnd
    | Single(i: nat, ep: nat, rep: Rep)
    | Malformed(error: Error)

  function RepAt(p: string, ep: nat): Rep
  {
    match At(p, ep)
    case '?' => Optional
    case '*' => Star
    case '+' => Plus
    case '-' => Lazy
    case _ => One
  }

  /** An ordinary item: a single character class with its repetition. */
  function SingleAt(p: string, i: nat): (r: (Item, nat))
    requires i < |p|
    ensures i < r.1 <= |p| && (r.0.Single? ==> r.0.i == i && i < r.0.ep <= |p|)
  {
    match ClassEnd(p, i)
    case None => (Malformed(if p[i] == L_ESC then EndsWithEscape else MissingBracket), |p|)
    case Some(ep) => (Single(i, ep, RepAt(p, ep)), if RepAt(p, ep) == One then ep else ep + 1)
  }

  /** The item at `i`, and where the next one starts. */
  function ItemAt(p: string, i: nat): (r: (Item, nat))
    requires i < |p|
    ensures i < r.1 <= |p| && (r.0.Single? ==> r.0.i == i && i < r.0.ep <= |p|)
    ensures (r.0.Frontier? ==> i < r.0.i < r.0.ep <= |p|)
  {
    if p[i] == '(' then (if At(p, i + 1) == ')' then (Open(true), i + 2) else (Open(false), i + 1))
    else if p[i] == ')' then (Close, i + 1)
    else if p[i] == L_ESC && At(p, i + 1) == 'b' then
      (if i + 3 < |p| then (Balance(p[i + 2], p[i + 3]), i + 4) else (Malformed(Unbalanced), |p|))
    else if p[i] == L_ESC && At(p, i + 1) == 'f' then
      if At(p, i + 2) != '[' then (Malformed(NoFrontierSet), |p|)
      else
        match ClassEnd(p, i + 2)
        case None => (Malformed(MissingBracket), |p|)
        case Some(ep) => (Frontier(i + 2, ep), ep)
    else if p[i] == L_ESC && IsDigit(At(p, i + 1)) then (BackRef(p[i + 1]), i + 2)
    else if p[i] == '$' && i + 1 == |p| then (AtEnd, i + 1)
    else SingleAt(p, i)
  }

  /** The result of a match: none, the position after it with the captures, or an error. */
  datatype Outcome = No | Done(end: nat, caps: seq<Cap>) | Raise(error: Error)

  predicate Allowed(rep: Rep, k: nat)
  {
    match rep
    case One => k == 1
    case Optional => k <= 1
    case Star => true
    case Plus => k >= 1
    case Lazy => true
  }

  /** The characters from `s` on that are in a class, `k` of them. */
  predicate Repeats(src: string, p: string, i: nat, ep: nat, s: nat, k: nat)
    requires i < |p| && ep > 0
  {
    s + k <= |src| && forall j :: s <= j < s + k ==> SingleMatch(src[j], p, i, ep)
  }

  /** The position after the text that `%b` balances; `depth` brackets are open. */
  function BalanceEnd(src: string, s: nat, b: char, e: char, depth: nat): (r: Option<nat>)
    ensures r.Some? ==> s < r.value <= |src|
    decreases |src| - s
  {
    if s >= |src| then None
    else if src[s] == e then (if depth <= 1 then Some(s + 1) else BalanceEnd(src, s + 1, b, e, depth - 1))
    else BalanceEnd(src, s + 1, b, e, if src[s] == b then depth + 1 else depth)
  }

  function Count(src: string, s: nat, n: nat, c: char): nat
    requires n <= |src|
  {
    if n <= s then 0 else Count(src, s, n - 1, c) + if src[n - 1] == c then 1 else 0
  }

  /** The text from the `b` at `s` ends at `n`, where for the first time as many `e` as `b` are read;
      if the two are the same character, it ends at the next one. */
  predicate Balances(src: string, s: nat, n: nat, b: char, e: char)
  {
    && s + 1 < n <= |src|
    && if b == e then src[n - 1] == e && forall m :: s < m < n - 1 ==> src[m] != e
       else Count(src, s, n, e) == Count(src, s, n, b) && forall m :: s < m < n ==>
         Count(src, s, m, e) < Count(src, s, m, b)
  }

  lemma BalanceExactly(src: string, s: nat, n: nat, b: char, e: char)
    requires s < |src| && src[s] == b
    ensures BalanceEnd(src, s + 1, b, e, 1) == Some(n) <==> Balances(src, s, n, b, e)
  {
    if b == e { SameFrom(src, s, s + 1, n, b); } else { BalanceFrom(src, s, s + 1, n, b, e, 1); }
  }

  lemma {:induction false} BalanceFrom(src: string, s0: nat, s: nat, n: nat, b: char, e: char, depth: nat)
    requires s0 < s <= |src| && b != e && src[s0] == b
    requires depth == Count(src, s0, s, b) - Count(src, s0, s, e)
    requires forall m :: s0 < m <= s ==> Count(src, s0, m, e) < Count(src, s0, m, b)
    ensures BalanceEnd(src, s, b, e, depth) == Some(n) <==> Balances(src, s0, n, b, e)
    decreases |src| - s
  {
    if s < |src| {
      if src[s] == e && depth == 1 {
        assert Count(src, s0, s + 1, e) == Count(src, s0, s + 1, b);
      } else {
        BalanceFrom(src, s0, s + 1, n, b, e, Count(src, s0, s + 1, b) - Count(src, s0, s + 1, e));
      }
    }
  }

  lemma {:induction false} SameFrom(src: string, s0: nat, s: nat, n: nat, e: char)
    requires s0 < s <= |src| && forall m :: s0 < m < s ==> src[m] != e
    ensures BalanceEnd(src, s, e, e, 1) == Some(n) <==> Balances(src, s0, n, e, e)
    decreases |src| - s
  {
    if s < |src| && src[s] != e { SameFrom(src, s0, s + 1, n, e); }
  }

  /** The last capture that is not closed. */
  function ToClose(caps: seq<Cap>): (r: Option<nat>)
    ensures r.Some? ==> r.value < |caps| && caps[r.value].len == CAP_UNFINISHED && forall j :: r.value < j < |caps| ==>
      caps[j].len != CAP_UNFINISHED
    ensures r.None? ==> forall j :: 0 <= j < |caps| ==> caps[j].len != CAP_UNFINISHED
  {
    if caps == [] then None
    else if caps[|caps| - 1].len == CAP_UNFINISHED then Some(|caps| - 1)
    else ToClose(caps[..|caps| - 1])
  }

  /** The text of capture `l` is again at `s`. A position capture has a length no text has. */
  predicate Again(src: string, s: nat, c: Cap)
  {
    0 <= c.len && s + c.len <= |src| && c.init + c.len <= |src| && src[c.init..c.init + c.len] == src[s..s + c.len]
  }

  predicate InFrontier(src: string, p: string, i: nat, ep: nat, s: nat)
  {
    && ep > 0 && !BracketClass(if s == 0 || s > |src| then NUL else src[s - 1], p, i, ep - 1)
    && BracketClass(At(src, s), p, i, ep - 1)
  }

  /** What one item takes of the subject, at `s`, if it is repeated `k` times (0 for the items that
      cannot be repeated). */
  function Take(src: string, p: string, item: Item, k: nat, s: nat, caps: seq<Cap>): Outcome
    requires item.Single? ==> item.i < |p| && item.ep > 0
  {
    match item
    case Single(i, ep, rep) => if Allowed(rep, k) && Repeats(src, p, i, ep, s, k) then Done(s + k, caps) else No
    case Open(position) =>
      if k != 0 then No else if |caps| >= LUA_MAXCAPTURES then Raise(TooManyCaptures)
      else Done(s, caps + [Cap(s, if position then CAP_POSITION else CAP_UNFINISHED)])
    case Close =>
      if k != 0 then No
      else match ToClose(caps) {
        case None => Raise(BadCapture)
        case Some(l) => Done(s, caps[l := Cap(caps[l].init, s - caps[l].init)])
      }
    case Balance(b, e) =>
      if k != 0 || At(src, s) != b || s >= |src| then No
      else match BalanceEnd(src, s + 1, b, e, 1) {
        case None => No
        case Some(s') => Done(s', caps)
      }
    case Frontier(i, ep) => if k == 0 && InFrontier(src, p, i, ep, s) then Done(s, caps) else No
    case BackRef(c) =>
      if k != 0 then No
      else
        var l := c as int - '1' as int;
        if l < 0 || l >= |caps| || caps[l].len == CAP_UNFINISHED then Raise(BadCaptureIndex)
        else if Again(src, s, caps[l]) then Done(s + caps[l].len, caps) else No
    case AtEnd => if k == 0 && s == |src| then Done(s, caps) else No
    case Malformed(error) => if k == 0 then Raise(error) else No
  }

  /** The match in which the items of the pattern, from `i` on, are repeated as `ks` says. */
  function Follow(src: string, p: string, i: nat, ks: seq<nat>, s: nat, caps: seq<Cap>): Outcome
    decreases |ks|
  {
    if i >= |p| then (if ks == [] then Done(s, caps) else No)
    else if ks == [] then No
    else
      var (item, next) := ItemAt(p, i);
      match Take(src, p, item, ks[0], s, caps)
      case No => No
      case Raise(error) => if |ks| == 1 then Raise(error) else No
      case Done(s', caps') => Follow(src, p, next, ks[1..], s', caps')
  }

  /** One way to repeat the items is tried before another: at the first item where they differ, the
      longer repetition comes first, but the shorter one for `-`. */
  predicate Before(p: string, i: nat, a: seq<nat>, b: seq<nat>)
    decreases |a|
  {
    && i < |p| && a != [] && b != []
    && var (item, next) := ItemAt(p, i);
      if a[0] == b[0] then Before(p, next, a[1..], b[1..])
      else if item.Single? && item.rep == Lazy then a[0] < b[0] else a[0] > b[0]
  }

  ghost predicate NoMatch(src: string, p: string, i: nat, s: nat, caps: seq<Cap>)
  {
    forall ks :: Follow(src, p, i, ks, s, caps) == No
  }

  ghost predicate NoneBefore(src: string, p: string, i: nat, ks: seq<nat>, s: nat, caps: seq<Cap>)
  {
    forall ks' :: Before(p, i, ks', ks) ==> Follow(src, p, i, ks', s, caps) == No
  }

  /** `r` is the first outcome, and there is none only if no way to repeat the items gives one. */
  ghost predicate IsFirst(src: string, p: string, i: nat, s: nat, caps: seq<Cap>, r: Outcome, ks: seq<nat>)
  {
    if r.No? then NoMatch(src, p, i, s, caps)
    else Follow(src, p, i, ks, s, caps) == r && NoneBefore(src, p, i, ks, s, caps)
  }

  /** No repetition of the item at `i` by exactly `k` leads anywhere. */
  ghost predicate Failed(src: string, p: string, i: nat, k: nat, s: nat, caps: seq<Cap>)
  {
    forall ks :: ks != [] && ks[0] == k ==> Follow(src, p, i, ks, s, caps) == No
  }

  /** Every repetition by more than `k`, or by less, fails. */
  ghost predicate FailedAbove(src: string, p: string, i: nat, k: int, s: nat, caps: seq<Cap>)
  {
    forall k': nat :: k' > k ==> Failed(src, p, i, k', s, caps)
  }

  ghost predicate FailedBelow(src: string, p: string, i: nat, k: int, s: nat, caps: seq<Cap>)
  {
    forall k': nat :: k' < k ==> Failed(src, p, i, k', s, caps)
  }

  lemma TakeFails(src: string, p: string, i: nat, k: nat, s: nat, caps: seq<Cap>)
    requires i < |p| && Take(src, p, ItemAt(p, i).0, k, s, caps) == No
    ensures Failed(src, p, i, k, s, caps)
  {
  }

  lemma RestFails(src: string, p: string, i: nat, k: nat, s: nat, caps: seq<Cap>, s': nat, caps': seq<Cap>)
    requires i < |p| && Take(src, p, ItemAt(p, i).0, k, s, caps) == Done(s', caps')
    requires NoMatch(src, p, ItemAt(p, i).1, s', caps')
    ensures Failed(src, p, i, k, s, caps)
  {
  }

  lemma AllFail(src: string, p: string, i: nat, s: nat, caps: seq<Cap>)
    requires i < |p| && forall k :: Failed(src, p, i, k, s, caps)
    ensures NoMatch(src, p, i, s, caps)
  {
    forall ks ensures Follow(src, p, i, ks, s, caps) == No {
      if ks != [] { assert Failed(src, p, i, ks[0], s, caps); }
    }
  }

  /** The repetition `k` is tried before `k'`. */
  predicate Earlier(p: string, i: nat, k: nat, k': nat)
    requires i < |p|
  {
    var item := ItemAt(p, i).0;
    if item.Single? && item.rep == Lazy then k < k' else k > k'
  }

  /** Repeating the item `k` times goes on to `r`, and every earlier repetition fails. */
  lemma RestFirst(src: string, p: string, i: nat, k: nat, s: nat, caps: seq<Cap>, s': nat, caps': seq<Cap>, r: Outcome,
      ks: seq<nat>)
    requires i < |p| && Take(src, p, ItemAt(p, i).0, k, s, caps) == Done(s', caps')
    requires !r.No? && IsFirst(src, p, ItemAt(p, i).1, s', caps', r, ks)
    requires forall k' :: Earlier(p, i, k', k) ==> Failed(src, p, i, k', s, caps)
    ensures IsFirst(src, p, i, s, caps, r, [k] + ks)
  {
    assert ([k] + ks)[1..] == ks;
    forall b | Before(p, i, b, [k] + ks) ensures Follow(src, p, i, b, s, caps) == No {
      if b[0] == k {
        assert Before(p, ItemAt(p, i).1, b[1..], ks);
      } else {
        assert Earlier(p, i, b[0], k);
        assert Failed(src, p, i, b[0], s, caps);
      }
    }
  }

  /** An item that raises an error, or fails, or has one way to go on. */
  lemma OneWay(src: string, p: string, i: nat, k: nat, s: nat, caps: seq<Cap>)
    requires i < |p| && forall k' :: k' != k ==> Take(src, p, ItemAt(p, i).0, k', s, caps) == No
    ensures forall k' :: k' != k ==> Failed(src, p, i, k', s, caps)
  {
    forall k' | k' != k ensures Failed(src, p, i, k', s, caps) { TakeFails(src, p, i, k', s, caps); }
  }

  lemma EndNotAfter(p: string, i: nat, b: seq<nat>, k: nat)
    requires i < |p| && b != [] && b[0] == k
    ensures !Before(p, i, b, [k])
  {
    var rest := [k][1..];
    assert rest == [];
    assert !Before(p, ItemAt(p, i).1, b[1..], rest);
  }

  lemma RaiseFirst(src: string, p: string, i: nat, k: nat, s: nat, caps: seq<Cap>, error: Error)
    requires i < |p| && Take(src, p, ItemAt(p, i).0, k, s, caps) == Raise(error)
    requires forall k' :: k' != k ==> Failed(src, p, i, k', s, caps)
    ensures IsFirst(src, p, i, s, caps, Raise(error), [k])
  {
    forall b | b != [] && b[0] == k ensures !Before(p, i, b, [k]) { EndNotAfter(p, i, b, k); }
    forall b | Before(p, i, b, [k]) ensures Follow(src, p, i, b, s, caps) == No {
      if b[0] != k {
        assert Failed(src, p, i, b[0], s, caps);
      }
    }
  }

  /** Of two ways to repeat the items that lead to an outcome, one is tried before the other. */
  lemma {:induction false} OrderTotal(src: string, p: string, i: nat, a: seq<nat>, b: seq<nat>, s: nat, caps: seq<Cap>)
    requires !Follow(src, p, i, a, s, caps).No? && !Follow(src, p, i, b, s, caps).No?
    ensures a == b || Before(p, i, a, b) || Before(p, i, b, a)
    decreases |a|
  {
    if i < |p| && a[0] == b[0] {
      var (item, next) := ItemAt(p, i);
      match Take(src, p, item, a[0], s, caps)
      case Done(s', caps') =>
        OrderTotal(src, p, next, a[1..], b[1..], s', caps');
        assert a == [a[0]] + a[1..] && b == [b[0]] + b[1..];
      case Raise(_) => assert a == [a[0]] && b == [b[0]];
      case No =>
    }
  }

  lemma NoneOrFirst(src: string, p: string, i: nat, s: nat, caps: seq<Cap>, r: Outcome, r': Outcome, ks': seq<nat>)
    requires r.No? ==> NoMatch(src, p, i, s, caps)
    requires IsFirst(src, p, i, s, caps, r', ks')
    ensures r.No? ==> r'.No?
  {
  }

  /** So the first outcome is unique. */
  lemma FirstUnique(src: string, p: string, i: nat, s: nat, caps: seq<Cap>, r: Outcome, ks: seq<nat>, r': Outcome,
      ks': seq<nat>)
    requires IsFirst(src, p, i, s, caps, r, ks) && IsFirst(src, p, i, s, caps, r', ks')
    ensures r == r'
  {
    NoneOrFirst(src, p, i, s, caps, r, r', ks');
    NoneOrFirst(src, p, i, s, caps, r', r, ks);
    if !r.No? { OrderTotal(src, p, i, ks, ks', s, caps); }
  }
}

/** The matcher, which backtracks over a state that it changes and restores (lstrlib.c). */
module PatternMatch {
  import opened Base
  import opened Pattern

  class MatchState {
    const src: string
    const p: string
    var level: nat
    var capture: seq<Cap>

    /** A pattern ends at its first NUL. */
    constructor (src: string, pattern: string)
      ensures this.src == src && this.p == CString(pattern) && Valid() && level == 0
    {
      this.src, this.p, level := src, CString(pattern), 0;
      capture := seq(LUA_MAXCAPTURES, _ => Cap(0, CAP_UNFINISHED));
    }

    ghost predicate Valid()
      reads this
    {
      && |capture| == LUA_MAXCAPTURES && level <= LUA_MAXCAPTURES && NUL !in p
      && forall j :: 0 <= j < level ==> Fits(capture[j])
    }

    /** A capture lies within the subject. */
    predicate Fits(c: Cap) { c.init <= |src| && (c.len >= 0 ==> c.init + c.len <= |src|) && c.len >= CAP_POSITION }

    /** The captures started before `s`. */
    ghost predicate Started(s: nat)
      requires Valid()
      reads this
    {
      s <= |src| && forall j :: 0 <= j < level ==> capture[j].init <= s
    }

    lemma SameStarted(s: nat, caps: seq<Cap>)
      requires Valid() && Caps() == caps && s <= |src| && forall j :: 0 <= j < |caps| ==> caps[j].init <= s
      ensures Started(s)
    {
      forall j | 0 <= j < level ensures capture[j].init <= s { assert capture[j] == caps[j]; }
    }

    function Caps(): seq<Cap>
      requires Valid()
      reads this
    {
      capture[..level]
    }

    /** What a call of match promises: the first outcome; after a failure the captures are as they
        were before. */
    twostate predicate Matched(s: nat, i: nat, r: Outcome, ks: seq<nat>)
      requires old(Valid())
      reads this
    {
      && IsFirst(src, p, i, s, old(Caps()), r, ks) && (r.Raise? || Valid())
      && (r.Done? ==> r.end <= |src| && Caps() == r.caps) && (r.No? ==> Caps() == old(Caps()))
    }

    /** matchbracketclass. */
    method MatchBracketClass(c: char, i0: nat, ec: nat) returns (r: bool)
      ensures r == BracketClass(c, p, i0, ec)
    {
      var i, sig := i0, true;
      if At(p, i + 1) == '^' {
        sig := false;
        i := i + 1;
      }
      i := i + 1;
      ghost var start := i;
      while i < ec
        invariant start <= i && InSet(c, p, start, ec) == InSet(c, p, i, ec)
        decreases ec - i
      {
        if At(p, i) == L_ESC {
          i := i + 1;
          if MatchClass(c, At(p, i)) { return sig; }
        } else if At(p, i + 1) == '-' && i + 2 < ec {
          i := i + 2;
          if At(p, i - 2) <= c <= At(p, i) { return sig; }
        } else if At(p, i) == c {
          return sig;
        }
        i := i + 1;
      }
      r := !sig;
    }

    /** singlematch. */
    method Matches1(c: char, i: nat, ep: nat) returns (r: bool)
      requires i < |p| && ep > 0
      ensures r == SingleMatch(c, p, i, ep)
    {
      if p[i] == '.' { return true; }
      if p[i] == L_ESC { return MatchClass(c, At(p, i + 1)); }
      if p[i] == '[' {
        r := MatchBracketClass(c, i, ep - 1);
        return;
      }
      r := p[i] == c;
    }

    /** matchbalance. */
    method MatchBalance(s0: nat, b: char, e: char) returns (r: Option<nat>)
      requires s0 < |src| && src[s0] == b
      ensures r == BalanceEnd(src, s0 + 1, b, e, 1)
      ensures forall n: nat :: r == Some(n) <==> Balances(src, s0, n, b, e)
    {
      forall n: nat ensures BalanceEnd(src, s0 + 1, b, e, 1) == Some(n) <==> Balances(src, s0, n, b, e) {
        BalanceExactly(src, s0, n, b, e);
      }
      var cont, s := 1, s0 + 1;
      while s < |src|
        invariant s0 < s <= |src| && cont >= 1 && BalanceEnd(src, s0 + 1, b, e, 1) == BalanceEnd(src, s, b, e, cont)
      {
        if src[s] == e {
          cont := cont - 1;
          if cont == 0 { return Some(s + 1); }
        } else if src[s] == b {
          cont := cont + 1;
        }
        s := s + 1;
      }
      r := None;
    }

    /** capture_to_close. */
    method CaptureToClose() returns (r: Option<nat>)
      requires Valid()
      ensures r == ToClose(Caps())
    {
      var l: int := level - 1;
      while l >= 0
        invariant -1 <= l < level && ToClose(Caps()) == ToClose(capture[..l + 1])
      {
        assert capture[..l + 1][..l] == capture[..l];
        if capture[l].len == CAP_UNFINISHED { return Some(l); }
        l := l - 1;
      }
      r := None;
    }

    /** max_expand: the longest repetition first. `from` is the repetition that `+` has behind it. */
    method MaxExpand(s: nat, i: nat, ep: nat, ghost from: nat) returns (r: Outcome, ghost ks: seq<nat>)
      requires Valid() && i < |p| && from <= 1 && from <= s && Started(s - from) && s <= |src|
      requires ItemAt(p, i) == (Single(i, ep, if from == 0 then Star else Plus), ep + 1)
      requires Repeats(src, p, i, ep, s - from, from)
      modifies this
      ensures Matched(s - from, i, r, ks)
      decreases |p| - i, 0
    {
      hide IsFirst, Failed, FailedAbove, Follow, Take, ItemAt, NoMatch;
      ghost var caps := Caps();
      assert forall j :: 0 <= j < |caps| ==> caps[j].init <= s;
      var k: int := 0;
      while s + k < |src|
        invariant 0 <= k && s + k <= |src| && Repeats(src, p, i, ep, s - from, from + k) && Valid() && Caps() == caps
        decreases |src| - s - k
      {
        var m := Matches1(src[s + k], i, ep);
        if !m { break; }
        k := k + 1;
      }
      TooLong(src, p, i, ep, s - from, from + k, caps);
      while k >= 0
        invariant -1 <= k && s + k <= |src| && Valid() && Caps() == caps && Started(s)
        invariant k >= 0 ==> Repeats(src, p, i, ep, s - from, from + k)
        invariant FailedAbove(src, p, i, from + k, s - from, caps)
        decreases k
      {
        ghost var n := from + k;
        assert Started(s + k);
        var res, more := Match(s + k, ep + 1);
        if res.No? { SameStarted(s, caps); }
        Longest(src, p, i, ep, n, s - from, caps, res, more);
        if !res.No? {
          ks := [n] + more;
          return res, ks;
        }
        k := k - 1;
      }
      NoRepetition(src, p, i, from, s - from, caps);
      r, ks := No, [];
    }

    /** min_expand: the shortest repetition first. */
    method MinExpand(s0: nat, i: nat, ep: nat) returns (r: Outcome, ghost ks: seq<nat>)
      requires Valid() && i < |p| && Started(s0) && ItemAt(p, i) == (Single(i, ep, Lazy), ep + 1)
      modifies this
      ensures Matched(s0, i, r, ks)
      decreases |p| - i, 0
    {
      hide IsFirst, Failed, FailedAbove, FailedBelow, Follow, Take, ItemAt, NoMatch;
      ghost var caps := Caps();
      assert forall j :: 0 <= j < |caps| ==> caps[j].init <= s0;
      Shorter(src, p, i, s0, caps);
      var s := s0;
      while true
        invariant s0 <= s <= |src| && Valid() && Caps() == caps && Started(s0) && Repeats(src, p, i, ep, s0, s - s0)
        invariant FailedBelow(src, p, i, s - s0, s0, caps)
        decreases |src| - s
      {
        ghost var n := s - s0;
        assert Started(s);
        var res, more := Match(s, ep + 1);
        if res.No? { SameStarted(s0, caps); }
        Shortest(src, p, i, ep, n, s0, caps, res, more);
        if !res.No? {
          ks := [n] + more;
          return res, ks;
        }
        var m := false;
        if s < |src| { m := Matches1(src[s], i, ep); }
        if !m {
          TooLong(src, p, i, ep, s0, n, caps);
          NoLazy(src, p, i, n, s0, caps);
          r, ks := No, [];
          return;
        }
        s := s + 1;
      }
    }

    /** start_capture. */
    method StartCapture(s: nat, i: nat, next: nat, position: bool) returns (r: Outcome, ghost ks: seq<nat>)
      requires Valid() && i < |p| && Started(s) && ItemAt(p, i) == (Open(position), next)
      modifies this
      ensures Matched(s, i, r, ks)
      decreases |p| - i, 0
    {
      hide IsFirst;
      ghost var caps := Caps();
      OneWay(src, p, i, 0, s, caps);
      if level >= LUA_MAXCAPTURES {
        RaiseFirst(src, p, i, 0, s, caps, TooManyCaptures);
        return Raise(TooManyCaptures), [0];
      }
      capture := capture[level := Cap(s, if position then CAP_POSITION else CAP_UNFINISHED)];
      level := level + 1;
      ghost var caps' := Caps();
      assert caps' == caps + [Cap(s, if position then CAP_POSITION else CAP_UNFINISHED)];
      ghost var more;
      r, more := Match(s, next);
      GoOn(src, p, i, s, caps, s, caps', r, more);
      ks := [0] + more;
      if r.No? {
        level := level - 1;
        assert Caps() == caps'[..level] == caps;
      }
    }

    /** end_capture. */
    method EndCapture(s: nat, i: nat) returns (r: Outcome, ghost ks: seq<nat>)
      requires Valid() && i < |p| && Started(s) && ItemAt(p, i) == (Close, i + 1)
      modifies this
      ensures Matched(s, i, r, ks)
      decreases |p| - i, 0
    {
      hide IsFirst;
      ghost var caps := Caps();
      OneWay(src, p, i, 0, s, caps);
      var l := CaptureToClose();
      if l.None? {
        RaiseFirst(src, p, i, 0, s, caps, BadCapture);
        return Raise(BadCapture), [0];
      }
      var init := capture[l.value].init;
      capture := capture[l.value := Cap(init, s - init)];
      ghost var caps' := Caps();
      assert caps' == caps[l.value := Cap(init, s - init)];
      ghost var more;
      r, more := Match(s, i + 1);
      GoOn(src, p, i, s, caps, s, caps', r, more);
      ks := [0] + more;
      if r.No? {
        capture := capture[l.value := Cap(capture[l.value].init, CAP_UNFINISHED)];
        assert Caps() == caps'[l.value := Cap(init, CAP_UNFINISHED)] == caps;
      }
    }

    /** match_capture. */
    method MatchCapture(s: nat, c: char) returns (r: Outcome)
      requires Valid() && Started(s) && IsDigit(c)
      ensures r == Take(src, p, BackRef(c), 0, s, Caps()) && (r.Done? ==> s <= r.end <= |src|)
    {
      var l := c as int - '1' as int;
      if l < 0 || l >= level || capture[l].len == CAP_UNFINISHED { return Raise(BadCaptureIndex); }
      var len, init := capture[l].len, capture[l].init;
      if len >= 0 && |src| - s >= len && src[init..init + len] == src[s..s + len] {
        return Done(s + len, Caps());
      }
      r := No;
    }

    /** The item is there or not, in this order. */
    method MatchOptional(s: nat, i: nat, ep: nat, m: bool) returns (r: Outcome, ghost ks: seq<nat>)
      requires Valid() && i < |p| && Started(s) && ItemAt(p, i) == (Single(i, ep, Optional), ep + 1)
      requires m == (s < |src| && SingleMatch(src[s], p, i, ep))
      modifies this
      ensures Matched(s, i, r, ks)
      decreases |p| - i, 0
    {
      hide IsFirst, Failed, Follow, ItemAt, SingleMatch;
      ghost var caps := Caps();
      ghost var more;
      if m {
        r, more := Match(s + 1, ep + 1);
        ks := [1] + more;
        OptionalFirst(src, p, i, ep, s, caps, r, more);
        if !r.No? { return; }
      } else {
        TakeFails(src, p, i, 1, s, caps);
      }
      r, more := Match(s, ep + 1);
      ks := [0] + more;
      OptionalSecond(src, p, i, ep, s, caps, r, more);
    }

    /** match, where the pattern has an ordinary item. */
    method MatchItem(s: nat, i: nat) returns (r: Outcome, ghost ks: seq<nat>)
      requires Valid() && i < |p| && Started(s) && ItemAt(p, i) == SingleAt(p, i)
      modifies this
      ensures Matched(s, i, r, ks)
      decreases |p| - i, 1
    {
      hide IsFirst, Failed, FailedAbove, Follow, NoMatch, SingleMatch;
      ghost var caps := Caps();
      var end := ClassEnd(p, i);
      if end.None? {
        var error := if p[i] == L_ESC then EndsWithEscape else MissingBracket;
        OneWay(src, p, i, 0, s, caps);
        RaiseFirst(src, p, i, 0, s, caps, error);
        return Raise(error), [0];
      }
      var ep := end.value;
      var m := false;
      if s < |src| { m := Matches1(src[s], i, ep); }
      match RepAt(p, ep)
      case Optional => r, ks := MatchOptional(s, i, ep, m);
      case Star => r, ks := MaxExpand(s, i, ep, 0);
      case Plus =>
        if m {
          r, ks := MaxExpand(s + 1, i, ep, 1);
        } else {
          TooLong(src, p, i, ep, s, 0, caps);
          NoRepetition(src, p, i, 1, s, caps);
          r, ks := No, [];
        }
      case Lazy => r, ks := MinExpand(s, i, ep);
      case One =>
        if m {
          ghost var more;
          r, more := Match(s + 1, ep);
          OnceFirst(src, p, i, ep, s, caps, r, more);
          ks := [1] + more;
        } else {
          OnceFails(src, p, i, ep, s, caps);
          r, ks := No, [];
        }
    }

    /** match: the first outcome of the pattern from `i` on, for the subject from `s` on. */
    method Match(s: nat, i: nat) returns (r: Outcome, ghost ks: seq<nat>)
      requires Valid() && i <= |p| && Started(s)
      modifies this
      ensures Matched(s, i, r, ks)
      decreases |p| - i, 2
    {
      hide IsFirst;
      ghost var caps := Caps();
      if i == |p| {
        r, ks := Done(s, Caps()), [];
        DoneFirst(src, p, i, s, caps);
        return;
      }
      if p[i] == '(' {
        if At(p, i + 1) == ')' {
          r, ks := StartCapture(s, i, i + 2, true);
        } else {
          r, ks := StartCapture(s, i, i + 1, false);
        }
      } else if p[i] == ')' {
        r, ks := EndCapture(s, i);
      } else if p[i] == L_ESC && (At(p, i + 1) == 'b' || At(p, i + 1) == 'f' || IsDigit(At(p, i + 1))) {
        r, ks := MatchSpecial(s, i);
      } else if p[i] == '$' && i + 1 == |p| {
        OneWay(src, p, i, 0, s, caps);
        if s == |src| {
          DoneFirst(src, p, i + 1, s, caps);
          r, ks := Done(s, Caps()), [0] + [];
          GoOn(src, p, i, s, caps, s, caps, r, []);
        } else {
          TakeFails(src, p, i, 0, s, caps);
          AllFail(src, p, i, s, caps);
          r, ks := No, [];
          NoFirst(src, p, i, s, caps, ks);
        }
      } else {
        r, ks := MatchItem(s, i);
      }
    }

    /** The items %b, %f and %0 to %9: one step, and the rest of the pattern if it succeeds. */
    method MatchSpecial(s: nat, i: nat) returns (r: Outcome, ghost ks: seq<nat>)
      requires Valid() && i < |p| && Started(s) && p[i] == L_ESC
      requires (At(p, i + 1) == 'b' || At(p, i + 1) == 'f' || IsDigit(At(p, i + 1)))
      modifies this
      ensures Matched(s, i, r, ks)
      decreases |p| - i, 0
    {
      hide IsFirst;
      ghost var caps := Caps();
      var next := ItemAt(p, i).1;
      var step;
      if p[i + 1] == 'b' {
        if i + 3 >= |p| {
          step := Raise(Unbalanced);
        } else if At(src, s) != p[i + 2] {
          step := No;
        } else {
          NulNotIn(p, i + 2);
          var e := MatchBalance(s, p[i + 2], p[i + 3]);
          step := if e.None? then No else Done(e.value, Caps());
        }
      } else if p[i + 1] == 'f' {
        if At(p, i + 2) != '[' {
          step := Raise(NoFrontierSet);
        } else {
          var end := ClassEnd(p, i + 2);
          if end.None? {
            step := Raise(MissingBracket);
          } else {
            var previous := if s == 0 then NUL else src[s - 1];
            var a := MatchBracketClass(previous, i + 2, end.value - 1);
            var b := MatchBracketClass(At(src, s), i + 2, end.value - 1);
            step := if a || !b then No else Done(s, Caps());
          }
        }
      } else {
        step := MatchCapture(s, p[i + 1]);
      }
      assert step == Take(src, p, ItemAt(p, i).0, 0, s, caps);
      OneWay(src, p, i, 0, s, caps);
      match step
      case No =>
        TakeFails(src, p, i, 0, s, caps);
        AllFail(src, p, i, s, caps);
        r, ks := No, [];
        NoFirst(src, p, i, s, caps, ks);
      case Raise(error) =>
        RaiseFirst(src, p, i, 0, s, caps, error);
        r, ks := step, [0];
      case Done(s', _) =>
        ghost var more;
        r, more := Match(s', next);
        GoOn(src, p, i, s, caps, s', caps, r, more);
        ks := [0] + more;
    }
  }

  function CString(p: string): (c: string)
    ensures NUL !in c && c <= p && (|c| < |p| ==> p[|c|] == NUL)
  {
    if p == [] || p[0] == NUL then [] else [p[0]] + CString(p[1..])
  }

  lemma NulNotIn(p: string, i: nat)
    requires NUL !in p && i < |p|
    ensures p[i] != NUL
  {
  }

  lemma NoFirst(src: string, p: string, i: nat, s: nat, caps: seq<Cap>, ks: seq<nat>)
    requires NoMatch(src, p, i, s, caps)
    ensures IsFirst(src, p, i, s, caps, No, ks)
  {
  }

  lemma DoneFirst(src: string, p: string, i: nat, s: nat, caps: seq<Cap>)
    requires i == |p|
    ensures IsFirst(src, p, i, s, caps, Done(s, caps), [])
  {
  }

  /** When the next character is not in the class, longer repetitions fail. */
  lemma TooLong(src: string, p: string, i: nat, ep: nat, s: nat, k: nat, caps: seq<Cap>)
    requires i < |p| && ep > 0 && ItemAt(p, i).0.Single? && ItemAt(p, i).0.ep == ep && s + k <= |src|
    requires s + k < |src| ==> !SingleMatch(src[s + k], p, i, ep)
    ensures FailedAbove(src, p, i, k, s, caps)
  {
    forall k': nat | k' > k ensures Failed(src, p, i, k', s, caps) {
      assert !Repeats(src, p, i, ep, s, k');
      TakeFails(src, p, i, k', s, caps);
    }
  }

  /** An item with only one way to go on has the outcome of the rest of the pattern. */
  lemma GoOn(src: string, p: string, i: nat, s: nat, caps: seq<Cap>, s': nat, caps': seq<Cap>, r: Outcome, ks: seq<nat>)
    requires i < |p| && Take(src, p, ItemAt(p, i).0, 0, s, caps) == Done(s', caps') && !ItemAt(p, i).0.Single?
    requires IsFirst(src, p, ItemAt(p, i).1, s', caps', r, ks) && forall k :: k != 0 ==> Failed(src, p, i, k, s, caps)
    ensures IsFirst(src, p, i, s, caps, r, [0] + ks)
  {
    if r.No? {
      RestFails(src, p, i, 0, s, caps, s', caps');
      AllFail(src, p, i, s, caps);
    } else {
      RestFirst(src, p, i, 0, s, caps, s', caps', r, ks);
    }
  }

  lemma OnceFirst(src: string, p: string, i: nat, ep: nat, s: nat, caps: seq<Cap>, r: Outcome, ks: seq<nat>)
    requires i < |p| && ItemAt(p, i) == (Single(i, ep, One), ep) && s < |src| && SingleMatch(src[s], p, i, ep)
    requires IsFirst(src, p, ep, s + 1, caps, r, ks)
    ensures IsFirst(src, p, i, s, caps, r, [1] + ks)
  {
    OneWay(src, p, i, 1, s, caps);
    assert Take(src, p, ItemAt(p, i).0, 1, s, caps) == Done(s + 1, caps);
    if r.No? {
      RestFails(src, p, i, 1, s, caps, s + 1, caps);
      AllFail(src, p, i, s, caps);
    } else {
      RestFirst(src, p, i, 1, s, caps, s + 1, caps, r, ks);
    }
  }

  lemma OnceFails(src: string, p: string, i: nat, ep: nat, s: nat, caps: seq<Cap>)
    requires i < |p| && ItemAt(p, i) == (Single(i, ep, One), ep) && s <= |src|
    requires (s < |src| ==> !SingleMatch(src[s], p, i, ep))
    ensures forall ks :: IsFirst(src, p, i, s, caps, No, ks)
  {
    OneWay(src, p, i, 1, s, caps);
    assert !Repeats(src, p, i, ep, s, 1);
    TakeFails(src, p, i, 1, s, caps);
    AllFail(src, p, i, s, caps);
  }

  /** The repetition by `n` after all longer ones failed. */
  lemma Longest(src: string, p: string, i: nat, ep: nat, n: nat, s: nat, caps: seq<Cap>, r: Outcome, ks: seq<nat>)
    requires i < |p| && ItemAt(p, i).1 == ep + 1
    requires (ItemAt(p, i).0 == Single(i, ep, Star) || (ItemAt(p, i).0 == Single(i, ep, Plus) && n >= 1))
    requires Repeats(src, p, i, ep, s, n) && FailedAbove(src, p, i, n, s, caps)
    requires IsFirst(src, p, ep + 1, s + n, caps, r, ks)
    ensures if r.No? then FailedAbove(src, p, i, n - 1, s, caps) else IsFirst(src, p, i, s, caps, r, [n] + ks)
  {
    hide Follow, ItemAt, Failed, NoMatch, NoneBefore;
    assert Take(src, p, ItemAt(p, i).0, n, s, caps) == Done(s + n, caps);
    if r.No? {
      RestFails(src, p, i, n, s, caps, s + n, caps);
    } else {
      RestFirst(src, p, i, n, s, caps, s + n, caps, r, ks);
    }
  }

  /** The repetition by `n` after all shorter ones failed. */
  lemma Shortest(src: string, p: string, i: nat, ep: nat, n: nat, s: nat, caps: seq<Cap>, r: Outcome, ks: seq<nat>)
    requires i < |p| && ItemAt(p, i) == (Single(i, ep, Lazy), ep + 1)
    requires Repeats(src, p, i, ep, s, n) && FailedBelow(src, p, i, n, s, caps)
    requires IsFirst(src, p, ep + 1, s + n, caps, r, ks)
    ensures if r.No? then FailedBelow(src, p, i, n + 1, s, caps) else IsFirst(src, p, i, s, caps, r, [n] + ks)
  {
    hide Follow, ItemAt, Failed, NoMatch, NoneBefore;
    assert Take(src, p, ItemAt(p, i).0, n, s, caps) == Done(s + n, caps);
    if r.No? {
      RestFails(src, p, i, n, s, caps, s + n, caps);
    } else {
      RestFirst(src, p, i, n, s, caps, s + n, caps, r, ks);
    }
  }

  lemma Shorter(src: string, p: string, i: nat, s: nat, caps: seq<Cap>)
    ensures FailedBelow(src, p, i, 0, s, caps)
  {
  }

  lemma NoRepetition(src: string, p: string, i: nat, from: nat, s: nat, caps: seq<Cap>)
    requires i < |p| && ItemAt(p, i).0.Single? && (from == 0 || (from == 1 && ItemAt(p, i).0.rep == Plus))
    requires FailedAbove(src, p, i, from - 1, s, caps)
    ensures forall ks :: IsFirst(src, p, i, s, caps, No, ks)
  {
    if from == 1 { TakeFails(src, p, i, 0, s, caps); }
    AllFail(src, p, i, s, caps);
  }

  lemma NoLazy(src: string, p: string, i: nat, n: nat, s: nat, caps: seq<Cap>)
    requires i < |p| && FailedBelow(src, p, i, n + 1, s, caps) && FailedAbove(src, p, i, n, s, caps)
    ensures forall ks :: IsFirst(src, p, i, s, caps, No, ks)
  {
    AllFail(src, p, i, s, caps);
  }

  lemma OptionalFirst(src: string, p: string, i: nat, ep: nat, s: nat, caps: seq<Cap>, r: Outcome, ks: seq<nat>)
    requires i < |p| && ItemAt(p, i) == (Single(i, ep, Optional), ep + 1) && s < |src| && SingleMatch(src[s], p, i, ep)
    requires IsFirst(src, p, ep + 1, s + 1, caps, r, ks)
    ensures if r.No? then Failed(src, p, i, 1, s, caps) else IsFirst(src, p, i, s, caps, r, [1] + ks)
  {
    assert Take(src, p, ItemAt(p, i).0, 1, s, caps) == Done(s + 1, caps);
    if r.No? {
      RestFails(src, p, i, 1, s, caps, s + 1, caps);
    } else {
      forall k | k > 1 ensures Failed(src, p, i, k, s, caps) { TakeFails(src, p, i, k, s, caps); }
      RestFirst(src, p, i, 1, s, caps, s + 1, caps, r, ks);
    }
  }

  lemma OptionalSecond(src: string, p: string, i: nat, ep: nat, s: nat, caps: seq<Cap>, r: Outcome, ks: seq<nat>)
    requires i < |p| && ItemAt(p, i) == (Single(i, ep, Optional), ep + 1) && s <= |src| && Failed(src, p, i, 1, s, caps)
    requires IsFirst(src, p, ep + 1, s, caps, r, ks)
    ensures IsFirst(src, p, i, s, caps, r, [0] + ks)
  {
    forall k | k > 1 ensures Failed(src, p, i, k, s, caps) { TakeFails(src, p, i, k, s, caps); }
    if r.No? {
      RestFails(src, p, i, 0, s, caps, s, caps);
      AllFail(src, p, i, s, caps);
    } else {
      RestFirst(src, p, i, 0, s, caps, s, caps, r, ks);
    }
  }
}

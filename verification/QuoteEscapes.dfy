/** What a string literal denotes, escape by escape (section 2.1 of the Lua 5.1 manual). */
module QuoteEscapes {
  import opened Base
  import opened Quote

  /** The ways to write one character. */
  datatype Unit =
    | Plain(c: char)
    | Control(letter: char)
    | Self(c: char)
    | Newline(text: string)
    | Code(digits: string)

  function UnitText(u: Unit): string
  {
    match u
    case Plain(c) => [c]
    case Control(letter) => ['\\', letter]
    case Self(c) => ['\\', c]
    case Newline(text) => "\\" + text
    case Code(digits) => "\\" + digits
  }

  function DigitOf(c: char): int { c as int - 48 }

  function CodeOf(digits: string): int
  {
    if |digits| == 1 then DigitOf(digits[0])
    else if |digits| == 2 then 10 * DigitOf(digits[0]) + DigitOf(digits[1])
    else if |digits| == 3 then 100 * DigitOf(digits[0]) + 10 * DigitOf(digits[1]) + DigitOf(digits[2])
    else 0
  }

  /** The code of the character: bell, backspace, form feed, newline, carriage return, tab and vertical tab for the
      letters. */
  function UnitCode(u: Unit): int
  {
    match u
    case Plain(c) => c as int
    case Control(letter) =>
      (match letter
       case 'a' => 7
       case 'b' => 8
       case 'f' => 12
       case 'n' => 10
       case 'r' => 13
       case 't' => 9
       case _ => 11)
    case Self(c) => c as int
    case Newline(_) => 10
    case Code(digits) => CodeOf(digits)
  }

  predicate IsCode(digits: string) { 1 <= |digits| <= 3 && forall k :: 0 <= k < |digits| ==> '0' <= digits[k] <= '9' }

  predicate Proper(u: Unit, del: char)
  {
    match u
    case Plain(c) => c != del && c != '\\' && c != '\n' && c != '\r'
    case Control(letter) => letter in "abfnrtv"
    case Self(c) => c !in "abfnrtv" && !('0' <= c <= '9') && c != '\n' && c != '\r'
    case Newline(text) => text == "\n" || text == "\r" || text == "\n\r" || text == "\r\n"
    case Code(digits) => IsCode(digits) && CodeOf(digits) <= 255
  }

  /** The character after a unit does not belong to it. */
  predicate Ends(u: Unit, t: string, i: nat)
  {
    match u
    case Newline(text) =>
      |text| == 1 && i < |t| ==> t[i] == text[0] || (t[i] != '\n' && t[i] != '\r')
    case Code(digits) => |digits| < 3 && i < |t| ==> !('0' <= t[i] <= '9')
    case _ => true
  }

  function Lines(u: Unit): nat { if u.Newline? then 1 else 0 }

  lemma LetterIs(letter: char)
    requires letter in "abfnrtv"
    ensures |Letter(letter)| == 1 && Letter(letter)[0] as int == UnitCode(Control(letter))
  {
  }

  lemma NotLetter(c: char)
    requires c !in "abfnrtv"
    ensures Letter(c) == []
  {
    var l := "abfnrtv";
    assert l[0] == 'a' && l[1] == 'b' && l[2] == 'f' && l[3] == 'n' && l[4] == 'r' && l[5] == 't' && l[6] == 'v';
  }

  /** The digits of a decimal escape, which may be too large. */
  lemma CodeReads(t: string, i: nat, digits: string)
    requires IsCode(digits) && Written(t, i, digits) && Ends(Code(digits), t, i + |digits|)
    ensures DigitsEnd(t, i, 3) == i + |digits|
    ensures (forall k :: i <= k < i + |digits| ==> IsDigit(t[k])) && Decimal(t, i, i + |digits|) == CodeOf(digits)
  {
    forall k | 0 <= k < |digits| ensures t[i + k] == digits[k] { WrittenChar(t, i, digits, k); }
    forall k | i <= k < i + |digits| ensures IsDigit(t[k]) { assert t[i + (k - i)] == digits[k - i]; }
    DigitsStop(t, i, |digits|, 3);
    DecimalIs(t, i, digits);
  }

  lemma DigitsStop(t: string, i: nat, m: nat, n: nat)
    requires i + m <= |t| && m <= n && (forall k :: i <= k < i + m ==> IsDigit(t[k]))
    requires m < n && i + m < |t| ==> !IsDigit(t[i + m])
    ensures DigitsEnd(t, i, n) == i + m
    decreases n
  {
    if m > 0 { DigitsStop(t, i + 1, m - 1, n - 1); }
  }

  lemma DecimalIs(t: string, i: nat, digits: string)
    requires IsCode(digits) && i + |digits| <= |t| && (forall k :: 0 <= k < |digits| ==> t[i + k] == digits[k])
    requires forall k :: i <= k < i + |digits| ==> IsDigit(t[k])
    ensures Decimal(t, i, i + |digits|) == CodeOf(digits)
  {
    assert Decimal(t, i, i) == 0;
    assert Decimal(t, i, i + 1) == DigitOf(digits[0]);
    if |digits| > 1 { assert Decimal(t, i, i + 2) == 10 * Decimal(t, i, i + 1) + DigitOf(digits[1]); }
    if |digits| > 2 { assert Decimal(t, i, i + 3) == 10 * Decimal(t, i, i + 2) + DigitOf(digits[2]); }
  }

  lemma NewlineReads(t: string, i: nat, text: string)
    requires text == "\n" || text == "\r" || text == "\n\r" || text == "\r\n"
    requires Written(t, i, text) && Ends(Newline(text), t, i + |text|)
    ensures i < |t| && IsNewline(t[i]) && AfterNewline(t, i) == i + |text|
  {
    WrittenChar(t, i, text, 0);
    if |text| > 1 { WrittenChar(t, i, text, 1); }
  }

  /** A unit is read as its character, and a line is counted for an escaped newline. */
  lemma UnitReads(t: string, i: nat, u: Unit, c: char, del: char, line: int)
    requires Proper(u, del) && Written(t, i, UnitText(u)) && Ends(u, t, i + |UnitText(u)|) && del != '\\'
    requires line + Lines(u) < MAX_INT && c as int == UnitCode(u)
    ensures Lex(t, i, del, line) == Prepend([c], Lex(t, i + |UnitText(u)|, del, line + Lines(u)))
  {
    hide Letter, AfterNewline, Decimal, DigitsEnd;
    WrittenChar(t, i, UnitText(u), 0);
    if !u.Plain? { WrittenChar(t, i, UnitText(u), 1); }
    match u
    case Plain(_) =>
    case Control(letter) => LetterIs(letter);
    case Self(d) => NotLetter(d);
    case Newline(text) =>
      WrittenParts(t, i, "\\", text);
      NewlineReads(t, i + 1, text);
      NoLetter(t[i + 1]);
    case Code(digits) =>
      WrittenParts(t, i, "\\", digits);
      CodeReads(t, i + 1, digits);
      NoLetter(t[i + 1]);
  }

  lemma NoLetter(c: char)
    requires IsNewline(c) || IsDigit(c)
    ensures Letter(c) == []
  {
  }

  /** A decimal escape above 255 is an error. */
  lemma CodeRefused(t: string, i: nat, digits: string, del: char, line: int)
    requires IsCode(digits) && CodeOf(digits) > 255 && Written(t, i, UnitText(Code(digits))) && del != '\\'
    ensures Lex(t, i, del, line) == EscapeTooLarge
  {
    hide Letter, AfterNewline, Decimal, DigitsEnd;
    WrittenChar(t, i, UnitText(Code(digits)), 0);
    WrittenChar(t, i, UnitText(Code(digits)), 1);
    WrittenParts(t, i, "\\", digits);
    CodeReads(t, i + 1, digits);
    NoLetter(t[i + 1]);
  }

  function UnitsText(us: seq<Unit>): string { if us == [] then [] else UnitText(us[0]) + UnitsText(us[1..]) }

  function UnitsLines(us: seq<Unit>): nat { if us == [] then 0 else Lines(us[0]) + UnitsLines(us[1..]) }

  /** The units are proper and stand for the characters of `s`; none runs into what follows. */
  predicate Denote(us: seq<Unit>, s: string, t: string, i: nat, del: char)
  {
    if us == [] then s == []
    else
      && s != [] && Proper(us[0], del) && s[0] as int == UnitCode(us[0]) && Ends(us[0], t, i + |UnitText(us[0])|)
      && Denote(us[1..], s[1..], t, i + |UnitText(us[0])|, del)
  }

  /** A literal is read as the characters its units stand for. */
  lemma {:induction false} LiteralReads(t: string, i: nat, us: seq<Unit>, s: string, del: char, line: int)
    requires Written(t, i, UnitsText(us) + [del]) && Denote(us, s, t, i, del) && (del == '"' || del == '\'')
    requires line + UnitsLines(us) < MAX_INT
    ensures Lex(t, i, del, line) == Ok(s, i + |UnitsText(us)| + 1, line + UnitsLines(us))
    decreases |us|
  {
    hide Written, Proper, UnitText, UnitCode, Ends, Lex;
    if us == [] {
      assert [] + [del] == [del];
      LiteralEnds(t, i, del, line);
    } else {
      var u := UnitText(us[0]);
      UnitsFirst(t, i, us, del);
      UnitReads(t, i, us[0], s[0], del, line);
      LiteralReads(t, i + |u|, us[1..], s[1..], del, line + Lines(us[0]));
      assert s == [s[0]] + s[1..];
    }
  }

  lemma LiteralEnds(t: string, i: nat, del: char, line: int)
    requires Written(t, i, [del])
    ensures Lex(t, i, del, line) == Ok([], i + 1, line)
  {
    WrittenChar(t, i, [del], 0);
  }

  lemma UnitsFirst(t: string, i: nat, us: seq<Unit>, del: char)
    requires us != [] && Written(t, i, UnitsText(us) + [del])
    ensures Written(t, i, UnitText(us[0])) && Written(t, i + |UnitText(us[0])|, UnitsText(us[1..]) + [del])
    ensures |UnitsText(us)| == |UnitText(us[0])| + |UnitsText(us[1..])|
  {
    hide Written, UnitText;
    var u, rest := UnitText(us[0]), UnitsText(us[1..]) + [del];
    assert UnitsText(us) + [del] == u + rest;
    WrittenParts(t, i, u, rest);
  }
}

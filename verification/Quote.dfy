/** The `%q` format (lstrlib.c) and the string tokens of the lexer (llex.c). Characters are bytes. */
module Quote {
  import opened Base

  const UCHAR_MAX := 255

  function Piece(c: char): string
  {
    if c == '"' || c == '\\' || c == '\n' then ['\\', c]
    else if c == '\r' then "\\r"
    else if c == '\0' then "\\000"
    else [c]
  }

  function Pieces(s: string): string { if s == [] then [] else Piece(s[0]) + Pieces(s[1..]) }

  lemma {:induction false} PiecesSplit(s: string, n: nat)
    requires n < |s|
    ensures Pieces(s[..n + 1]) == Pieces(s[..n]) + Piece(s[n])
  {
    assert s[..n + 1][0] == s[0];
    if n == 0 {
      assert s[..1][1..] == [];
      assert Pieces(s[..1]) == Piece(s[0]) + Pieces([]) && Pieces(s[..0]) == [];
    } else {
      assert s[..n + 1][1..] == s[1..][..n] && s[..n][1..] == s[1..][..n - 1] && s[..n][0] == s[0];
      PiecesSplit(s[1..], n - 1);
    }
  }

  function Quoted(s: string): string { "\"" + Pieces(s) + "\"" }

  /** addquoted. */
  method AddQuoted(b0: string, s: string) returns (b: string)
    ensures b == b0 + Quoted(s)
  {
    hide Pieces, Piece;
    b := b0 + "\"";
    assert s[..0] == [] && Pieces([]) == [] by { NoPieces(); }
    for i := 0 to |s|
      invariant b == b0 + "\"" + Pieces(s[..i])
    {
      PiecesSplit(s, i);
      ghost var was := b;
      b := AddPiece(b, s[i]);
      assert b == b0 + "\"" + (Pieces(s[..i]) + Piece(s[i]));
    }
    assert s[..|s|] == s;
    b := b + "\"";
    assert b == b0 + ("\"" + Pieces(s) + "\"");
  }

  lemma NoPieces()
    ensures Pieces([]) == []
  {
  }

  /** The body of the loop of addquoted. */
  method AddPiece(b0: string, c: char) returns (b: string)
    ensures b == b0 + Piece(c)
  {
    match c
    case '"' => b := b0 + ['\\', c];
    case '\\' => b := b0 + ['\\', c];
    case '\n' => b := b0 + ['\\', c];
    case '\r' => b := b0 + "\\r";
    case '\0' => b := b0 + "\\000";
    case _ => b := b0 + [c];
  }

  datatype Lexed = Ok(s: string, next: nat, line: int) | UnfinishedString | EscapeTooLarge | TooManyLines

  function Prepend(s: string, r: Lexed): Lexed { if r.Ok? then r.(s := s + r.s) else r }

  predicate IsNewline(c: char) { c == '\n' || c == '\r' }

  /** The escapes that are letters. */
  function Letter(c: char): (r: string)
    ensures |r| <= 1
  {
    match c
    case 'a' => [7 as char]
    case 'b' => [8 as char]
    case 'f' => [12 as char]
    case 'n' => ['\n']
    case 'r' => ['\r']
    case 't' => ['\t']
    case 'v' => [11 as char]
    case _ => []
  }

  /** The decimal escape at `i`: at most three digits. */
  function DigitsEnd(t: string, i: nat, n: nat): (e: nat)
    ensures i <= e <= i + n
    decreases n
  {
    if n == 0 || i >= |t| || !IsDigit(t[i]) then i else DigitsEnd(t, i + 1, n - 1)
  }

  function Decimal(t: string, i: nat, e: nat): (v: nat)
    requires i <= e <= |t| && forall k :: i <= k < e ==> IsDigit(t[k])
    decreases e - i
  {
    if i == e then 0 else assert IsDigit(t[e - 1]); 10 * Decimal(t, i, e - 1) + (t[e - 1] as int - '0' as int)
  }

  lemma DigitsAre(t: string, i: nat, n: nat)
    ensures var e := DigitsEnd(t, i, n); (i <= |t| ==> e <= |t|) && forall k :: i <= k < e && k < |t| ==> IsDigit(t[k])
    decreases n
  {
    if !(n == 0 || i >= |t| || !IsDigit(t[i])) { DigitsAre(t, i + 1, n - 1); }
  }

  /** After a newline, which may be two characters. */
  function AfterNewline(t: string, i: nat): (j: nat)
    requires i < |t|
    ensures i < j <= |t|
  {
    if i + 1 < |t| && IsNewline(t[i + 1]) && t[i + 1] != t[i] then i + 2 else i + 1
  }

  /** What the text from `i` on denotes, up to the delimiter. */
  function Lex(t: string, i: nat, del: char, line: int): Lexed
    decreases |t| - i
  {
    if i >= |t| then UnfinishedString
    else if t[i] == del then Ok([], i + 1, line)
    else if IsNewline(t[i]) then UnfinishedString
    else if t[i] != '\\' then Prepend([t[i]], Lex(t, i + 1, del, line))
    else if i + 1 >= |t| then UnfinishedString
    else if Letter(t[i + 1]) != [] then Prepend(Letter(t[i + 1]), Lex(t, i + 2, del, line))
    else if IsNewline(t[i + 1]) then
      (if line + 1 >= MAX_INT then TooManyLines else Prepend(['\n'], Lex(t, AfterNewline(t, i + 1), del, line + 1)))
    else if !IsDigit(t[i + 1]) then Prepend([t[i + 1]], Lex(t, i + 2, del, line))
    else
      var e := DigitsEnd(t, i + 1, 3);
      DigitsAre(t, i + 1, 3);
      var c := Decimal(t, i + 1, e);
      if c > UCHAR_MAX then EscapeTooLarge else Prepend([c as char], Lex(t, e, del, line))
  }

  /** The lexer while it reads a string. */
  class LexState {
    const input: string
    var pos: nat
    var linenumber: int
    var buff: string

    constructor (input: string, line: int)
      ensures this.input == input && pos == 0 && linenumber == line && buff == []
    {
      this.input, pos, linenumber, buff := input, 0, line, [];
    }

    /** read_string. */
    method ReadString(del: char) returns (r: Lexed)
      requires pos < |input| && input[pos] == del && !IsNewline(del) && del != '\\'
      modifies this
      ensures r == Lex(input, old(pos) + 1, del, old(linenumber))
    {
      hide Lex, Prepend;
      buff := [];
      pos := pos + 1;
      ghost var all := Lex(input, pos, del, linenumber);
      assert all == Prepend([], all) by { PrependNone(all); }
      while pos < |input| && input[pos] != del
        invariant all == Prepend(buff, Lex(input, pos, del, linenumber))
        decreases |input| - pos
      {
        LexStep(input, pos, del, linenumber, buff);
        if IsNewline(input[pos]) { return UnfinishedString; }
        if input[pos] != '\\' {
          buff := buff + [input[pos]];
          pos := pos + 1;
        } else {
          pos := pos + 1;
          if pos >= |input| { return UnfinishedString; }
          var letter := Letter(input[pos]);
          if letter != [] {
            buff := buff + letter;
            pos := pos + 1;
          } else if IsNewline(input[pos]) {
            buff := buff + ['\n'];
            pos := AfterNewline(input, pos);
            linenumber := linenumber + 1;
            if linenumber >= MAX_INT { return TooManyLines; }
          } else if !IsDigit(input[pos]) {
            buff := buff + [input[pos]];
            pos := pos + 1;
          } else {
            var c := ReadDecimal();
            if c > UCHAR_MAX { return EscapeTooLarge; }
            buff := buff + [c as char];
          }
        }
      }
      LexEnd(input, pos, del, linenumber, buff);
      if pos >= |input| { return UnfinishedString; }
      pos := pos + 1;
      r := Ok(buff, pos, linenumber);
    }

    /** The decimal digits of an escape. */
    method ReadDecimal() returns (c: nat)
      requires pos < |input| && IsDigit(input[pos])
      modifies this`pos
      ensures pos == DigitsEnd(input, old(pos), 3) && pos > old(pos) && pos <= |input|
      ensures forall k :: old(pos) <= k < pos ==> IsDigit(input[k])
      ensures c == Decimal(input, old(pos), pos)
    {
      var i := 0;
      ghost var start := pos;
      c := 0;
      while i < 3 && pos < |input| && IsDigit(input[pos])
        invariant i <= 3 && pos == start + i && pos <= |input|
        invariant DigitsEnd(input, start, 3) == DigitsEnd(input, pos, 3 - i)
        invariant (forall k :: start <= k < pos ==> IsDigit(input[k])) && c == Decimal(input, start, pos)
      {
        c := 10 * c + (input[pos] as int - '0' as int);
        pos := pos + 1;
        i := i + 1;
      }
    }
  }

  lemma PrependNone(r: Lexed)
    ensures r == Prepend([], r)
  {
    if r.Ok? { assert [] + r.s == r.s; }
  }

  lemma PrependTwice(a: string, b: string, r: Lexed)
    ensures Prepend(a, Prepend(b, r)) == Prepend(a + b, r)
  {
    if r.Ok? { assert a + (b + r.s) == a + b + r.s; }
  }

  /** One step of the lexer, with what it has read so far. */
  lemma LexStep(t: string, i: nat, del: char, line: int, buff: string)
    requires i < |t| && t[i] != del
    ensures var r := Prepend(buff, Lex(t, i, del, line));
      if IsNewline(t[i]) then r == UnfinishedString
      else if t[i] != '\\' then r == Prepend(buff + [t[i]], Lex(t, i + 1, del, line))
      else if i + 1 >= |t| then r == UnfinishedString
      else if Letter(t[i + 1]) != [] then r == Prepend(buff + Letter(t[i + 1]), Lex(t, i + 2, del, line))
      else if IsNewline(t[i + 1])
        then (if line + 1 >= MAX_INT then r == TooManyLines
        else r == Prepend(buff + ['\n'], Lex(t, AfterNewline(t, i + 1), del, line + 1)))
      else if !IsDigit(t[i + 1]) then r == Prepend(buff + [t[i + 1]], Lex(t, i + 2, del, line))
      else
        var e := DigitsEnd(t, i + 1, 3);
        e <= |t| && (forall k :: i + 1 <= k < e ==> IsDigit(t[k])) &&
        if Decimal(t, i + 1, e) > UCHAR_MAX then r == EscapeTooLarge
          else r == Prepend(buff + [Decimal(t, i + 1, e) as char], Lex(t, e, del, line))
  {
    DigitsAre(t, i + 1, 3);
    if !IsNewline(t[i]) {
      if t[i] != '\\' {
        PrependTwice(buff, [t[i]], Lex(t, i + 1, del, line));
      } else if i + 1 < |t| {
        if Letter(t[i + 1]) != [] {
          PrependTwice(buff, Letter(t[i + 1]), Lex(t, i + 2, del, line));
        } else if IsNewline(t[i + 1]) {
          PrependTwice(buff, ['\n'], Lex(t, AfterNewline(t, i + 1), del, line + 1));
        } else if !IsDigit(t[i + 1]) {
          PrependTwice(buff, [t[i + 1]], Lex(t, i + 2, del, line));
        } else {
          var e := DigitsEnd(t, i + 1, 3);
          if Decimal(t, i + 1, e) <= UCHAR_MAX { PrependTwice(buff, [Decimal(t, i + 1, e) as char],
            Lex(t, e, del, line)); }
        }
      }
    }
  }

  lemma LexEnd(t: string, i: nat, del: char, line: int, buff: string)
    requires i >= |t| || t[i] == del
    ensures Prepend(buff, Lex(t, i, del, line)) == if i >= |t| then UnfinishedString else Ok(buff, i + 1, line)
  {
    assert buff + [] == buff;
  }

  function Newlines(s: string): nat { if s == [] then 0 else (if s[0] == '\n' then 1 else 0) + Newlines(s[1..]) }

  /** Quoted text never goes on with a newline, so that an escaped newline stays by itself. */
  lemma GoesOn(s: string, rest: string)
    ensures var t := Pieces(s) + "\"" + rest; t != [] && !IsNewline(t[0])
  {
    if s != [] { assert Pieces(s)[0] == Piece(s[0])[0]; }
  }

  lemma LexNul(t: string, i: nat, line: int)
    requires i + 4 <= |t| && t[i..i + 4] == "\\000"
    ensures Lex(t, i, '"', line) == Prepend(['\0'], Lex(t, i + 4, '"', line))
  {
    assert t[i] == t[i..i + 4][0] && t[i + 1] == t[i..i + 4][1] && t[i + 2] == t[i..i + 4][2]
      && t[i + 3] == t[i..i + 4][3];
    assert DigitsEnd(t, i + 4, 0) == i + 4 && DigitsEnd(t, i + 3, 1) == i + 4 && DigitsEnd(t, i + 2, 2) == i + 4;
    assert DigitsEnd(t, i + 1, 3) == i + 4;
    assert Decimal(t, i + 1, i + 1) == 0 && Decimal(t, i + 1, i + 2) == 0 && Decimal(t, i + 1, i + 3) == 0;
  }

  /** The lexer undoes one piece. */
  lemma LexPiece(t: string, i: nat, c: char, line: int)
    requires i + |Piece(c)| < |t| && t[i..i + |Piece(c)|] == Piece(c) && !IsNewline(t[i + |Piece(c)|])
    ensures var n := i + |Piece(c)|;
      Lex(t, i, '"', line) == if c != '\n' then Prepend([c], Lex(t, n, '"', line))
        else if line + 1 >= MAX_INT then TooManyLines else Prepend([c], Lex(t, n, '"', line + 1))
  {
    var p := Piece(c);
    assert t[i] == t[i..i + |p|][0];
    if c == '\0' {
      LexNul(t, i, line);
    } else if |p| == 2 {
      assert t[i + 1] == t[i..i + 2][1];
    }
  }

  function Text(pre: string, s: string, rest: string): string { pre + Pieces(s) + "\"" + rest }

  lemma TextStep(pre: string, s: string, rest: string)
    requires s != []
    ensures var t, pre' := Text(pre, s, rest), pre + Piece(s[0]);
      t == Text(pre', s[1..], rest) && |pre'| < |t| && t[|pre|..|pre'|] == Piece(s[0]) && !IsNewline(t[|pre'|])
  {
    hide Piece, Pieces;
    PiecesFirst(s);
    GoesOn(s[1..], rest);
    TextCut(pre, Piece(s[0]), Pieces(s[1..]), rest);
  }

  lemma PiecesFirst(s: string)
    requires s != []
    ensures Pieces(s) == Piece(s[0]) + Pieces(s[1..])
  {
    hide Piece;
  }

  lemma TextCut(pre: string, a: string, b: string, rest: string)
    ensures var t := pre + (a + b) + "\"" + rest; var tail := b + "\"" + rest;
      t == (pre + a) + b + "\"" + rest && t[|pre|..|pre + a|] == a && |pre + a| < |t| && t[|pre + a|] == tail[0]
  {
    var t, tail := pre + (a + b) + "\"" + rest, b + "\"" + rest;
    assert t == pre + a + tail;
  }

  /** Reading back a quoted string gives the string, unless it has more lines than the lexer can
      count. */
  lemma {:induction false} RoundTrip(pre: string, s: string, rest: string, line: int)
    ensures var t, n := Text(pre, s, rest), Newlines(s);
      Lex(t, |pre|, '"', line) == if n > 0 && line + n >= MAX_INT then TooManyLines
        else Ok(s, |pre + Pieces(s)| + 1, line + n)
    decreases |s|
  {
    hide Lex, Piece, Text, Pieces, Prepend;
    if s == [] {
      NothingQuoted(pre, rest, line);
    } else {
      var pre' := pre + Piece(s[0]);
      TextStep(pre, s, rest);
      LexPiece(Text(pre, s, rest), |pre|, s[0], line);
      var line' := if s[0] == '\n' then line + 1 else line;
      RoundTrip(pre', s[1..], rest, line');
      Unquoted(pre, s, line' + Newlines(s[1..]));
    }
  }

  lemma NothingQuoted(pre: string, rest: string, line: int)
    ensures Lex(Text(pre, [], rest), |pre|, '"', line) == Ok([], |pre + Pieces([])| + 1, line)
  {
    assert Text(pre, [], rest)[|pre|] == '"';
  }

  lemma Unquoted(pre: string, s: string, line: int)
    requires s != []
    ensures Prepend([s[0]], Ok(s[1..], |pre + Piece(s[0]) + Pieces(s[1..])| + 1, line))
      == Ok(s, |pre + Pieces(s)| + 1, line)
    ensures Prepend([s[0]], TooManyLines) == TooManyLines
  {
    hide Piece, Pieces;
    PiecesFirst(s);
    assert [s[0]] + s[1..] == s;
  }

  /** The whole way: quoted by the formatter, read by the lexer. */
  method FormatAndRead(s: string, line: int) returns (r: Lexed)
    ensures r == if Newlines(s) > 0 && line + Newlines(s) >= MAX_INT then TooManyLines
      else Ok(s, |Quoted(s)|, line + Newlines(s))
  {
    var q := AddQuoted("", s);
    RoundTrip("\"", s, "", line);
    assert Text("\"", s, "") == q;
    var ls := new LexState(q, line);
    r := ls.ReadString('"');
  }
}

/**
 * The text of a token list, and the proof that the lexer reads it back. Blanks stand around operators and after NOT
 * only, which is enough because no two words are neighbours in a derivation. Numbers are printed in decimal.
 */
module ConditionRendering {
  import opened Results
  import opened RustText
  import opened ConditionLexer

  function Digits(n: nat): (s: string)
    ensures |s| > 0 && AllDigits(s) && DecimalValue(s) == n
  {
    var last := [('0' as int + n % 10) as char];
    if n < 10 then last else
    var s := Digits(n / 10) + last;
    assert s[..|s| - 1] == Digits(n / 10);
    s
  }

  function RenderNumber(n: int): string { if n < 0 then "-" + Digits(-n) else Digits(n) }

  function RenderToken(t: Token): string {
    match t
    case LParen => "("
    case RParen => ")"
    case Comma => ","
    case And => " && "
    case Or => " || "
    case Not => "NOT "
    case Ident(name) => name
    case Number(n) => RenderNumber(n)
  }

  function Render(ts: seq<Token>): string {
    if ts == [] then "" else RenderToken(ts[0]) + Render(ts[1..])
  }

  predicate AllWordChars(s: string) { forall i :: 0 <= i < |s| ==> IsWordChar(s[i]) }

  /** A predicate name as the lexer reads it. */
  predicate IsName(name: string) {
    name != "" && IsAlpha(name[0]) && AllWordChars(name) && name != "NOT"
  }

  predicate IsI64(n: int) { I64_MIN <= n <= I64_MAX }

  predicate Lexable(t: Token) {
    match t case Ident(name) => IsName(name) case Number(n) => IsI64(n) case _ => true
  }

  predicate Word(t: Token) { t.Ident? || t.Number? }

  predicate Punctuation(t: Token) { !Word(t) && !t.Not? }

  /** Words are never adjacent to words, so no separator is needed between tokens. */
  ghost predicate Separated(ts: seq<Token>) {
    && (forall i :: 0 <= i < |ts| ==> Lexable(ts[i]))
    && (forall i, j :: 0 <= i < j < |ts| && j == i + 1 && Word(ts[i]) ==> Punctuation(ts[j]))
  }

  lemma {:induction false} DigitRunAppend(s: string, rest: string)
    requires AllDigits(s) && (rest == "" || !IsDigit(rest[0]))
    ensures DigitRun(s + rest) == |s|
  {
    if s == "" { assert s + rest == rest; }
    else {
      DigitRunAppend(s[1..], rest);
      assert (s + rest)[1..] == s[1..] + rest;
    }
  }

  lemma {:induction false} WordRunAppend(s: string, rest: string)
    requires WordRun(s) == |s| && (rest == "" || !IsWordChar(rest[0]))
    ensures WordRun(s + rest) == |s|
  {
    if s == "" { assert s + rest == rest; }
    else {
      WordRunAppend(s[1..], rest);
      assert (s + rest)[1..] == s[1..] + rest;
    }
  }

  /** `text` at the start of an input is read as the token `t`. */
  ghost predicate ReadsAs(text: string, t: Token, rest: string, offset: nat) {
    text != "" && FirstToken(text + rest, offset) == Ok((t, |text|))
  }

  lemma LexRead(text: string, t: Token, rest: string, offset: nat)
    requires ReadsAs(text, t, rest, offset) && !IsWhitespace(text[0])
    ensures Lex(text + rest, offset) == Push(t, Lex(rest, offset + |text|))
  {
    assert (text + rest)[|text|..] == rest;
  }

  lemma NaturalAt(n: nat, rest: string)
    requires rest == "" || !IsDigit(rest[0])
    ensures var s := Digits(n) + rest; StartsNumber(s) && NumberRun(s) == |Digits(n)| && NumberAt(s) == n
  {
    var s := Digits(n) + rest;
    assert s[0] == Digits(n)[0] && IsDigit(s[0]);
    DigitRunAppend(Digits(n), rest);
    assert s[..|Digits(n)|] == Digits(n);
  }

  lemma NegativeAt(n: nat, rest: string)
    requires rest == "" || !IsDigit(rest[0])
    ensures var s := "-" + Digits(n) + rest; StartsNumber(s) && NumberRun(s) == 1 + |Digits(n)| && NumberAt(s) == 0 - n
  {
    var s := "-" + Digits(n) + rest;
    assert s[1..] == Digits(n) + rest && s[0] == '-' && s[1] == Digits(n)[0] && IsDigit(s[1]);
    DigitRunAppend(Digits(n), rest);
    assert s[1..][..|Digits(n)|] == Digits(n);
  }

  lemma ReadNumber(n: int, rest: string, offset: nat)
    requires IsI64(n) && (rest == "" || !IsDigit(rest[0]))
    ensures ReadsAs(RenderNumber(n), Number(n), rest, offset)
  {
    hide Digits, FirstToken, NumberAt, NumberRun, StartsNumber;
    if n < 0 { NegativeAt(-n, rest); } else { NaturalAt(n, rest); }
    NumberFirst(RenderNumber(n) + rest, offset);
  }

  lemma NumberFirst(s: string, offset: nat)
    requires StartsNumber(s) && IsI64(NumberAt(s))
    ensures FirstToken(s, offset) == Ok((Number(NumberAt(s)), NumberRun(s)))
  {
    hide NumberAt, NumberRun;
  }

  lemma {:induction false} AllWordCharsRun(s: string)
    requires AllWordChars(s)
    ensures WordRun(s) == |s|
  {
    if s != "" { AllWordCharsRun(s[1..]); }
  }

  lemma ReadWord(text: string, rest: string, offset: nat)
    requires text != "" && IsAlpha(text[0]) && AllWordChars(text) && (rest == "" || !IsWordChar(rest[0]))
    ensures ReadsAs(text, WordToken(text), rest, offset)
  {
    AllWordCharsRun(text);
    WordRunAppend(text, rest);
    assert (text + rest)[..|text|] == text;
  }

  lemma LexBlankThen(s: string, offset: nat)
    ensures Lex(" " + s, offset) == Lex(s, offset + 1)
  {
    assert (" " + s)[1..] == s;
  }

  lemma LexOperator(c: char, t: Token, rest: string, offset: nat)
    requires (c == '&' && t == Token.And) || (c == '|' && t == Token.Or)
    ensures Lex([' ', c, c, ' '] + rest, offset) == Push(t, Lex(rest, offset + 4))
  {
    assert [' ', c, c, ' '] + rest == " " + ([c, c] + (" " + rest));
    LexBlankThen([c, c] + (" " + rest), offset);
    LexRead([c, c], t, " " + rest, offset + 1);
    LexBlankThen(rest, offset + 3);
  }

  lemma LexNot(rest: string, offset: nat)
    ensures Lex("NOT " + rest, offset) == Push(Token.Not, Lex(rest, offset + 4))
  {
    assert "NOT " + rest == "NOT" + (" " + rest);
    ReadWord("NOT", " " + rest, offset);
    LexRead("NOT", Token.Not, " " + rest, offset);
    LexBlankThen(rest, offset + 3);
  }

  /** `rest` cannot be read as a continuation of token `t`. */
  predicate Delimits(rest: string, t: Token) { rest == "" || !Word(t) || !IsWordChar(rest[0]) }

  lemma LexPunctuation(t: Token, rest: string, offset: nat)
    requires t == LParen || t == RParen || t == Comma
    ensures Lex(RenderToken(t) + rest, offset) == Push(t, Lex(rest, offset + |RenderToken(t)|))
  {
    hide Lex;
    LexRead(RenderToken(t), t, rest, offset);
  }

  lemma LexToken(t: Token, rest: string, offset: nat)
    requires Lexable(t) && Delimits(rest, t)
    ensures Lex(RenderToken(t) + rest, offset) == Push(t, Lex(rest, offset + |RenderToken(t)|))
  {
    hide Digits, Lex, FirstToken;
    match t
    case Ident(name) =>
      ReadWord(name, rest, offset);
      LexRead(name, t, rest, offset);
    case Number(n) =>
      ReadNumber(n, rest, offset);
      LexRead(RenderNumber(n), t, rest, offset);
    case And => LexOperator('&', t, rest, offset);
    case Or => LexOperator('|', t, rest, offset);
    case Not => LexNot(rest, offset);
    case _ => LexPunctuation(t, rest, offset);
  }

  lemma RenderDelimits(ts: seq<Token>)
    requires Separated(ts) && ts != []
    ensures Delimits(Render(ts[1..]), ts[0])
  {
    if |ts| > 1 && Word(ts[0]) { assert Punctuation(ts[1]) && ts[1..][0] == ts[1]; }
  }

  lemma SeparatedTail(ts: seq<Token>)
    requires Separated(ts) && ts != []
    ensures Separated(ts[1..]) && Lexable(ts[0])
  {
    forall i, j | 0 <= i < j < |ts[1..]| && j == i + 1 && Word(ts[1..][i]) ensures Punctuation(ts[1..][j]) {
      assert ts[1..][i] == ts[i + 1] && ts[1..][j] == ts[j + 1];
    }
  }

  lemma LexCons(text: string, t: Token, rest: string, more: seq<Token>, offset: nat)
    requires Lexable(t) && Delimits(rest, t) && text == RenderToken(t) + rest
    requires Lex(rest, offset + |RenderToken(t)|) == Ok(more)
    ensures Lex(text, offset) == Ok([t] + more)
  {
    LexToken(t, rest, offset);
  }

  lemma LexEmpty(offset: nat)
    ensures Lex("", offset) == Ok([])
  {
  }

  /** Lexing undoes rendering on every separated token list. */
  lemma {:induction false} LexRender(text: string, ts: seq<Token>, offset: nat)
    requires Separated(ts) && text == Render(ts)
    ensures Lex(text, offset) == Ok(ts)
    decreases |ts|
  {
    hide Digits, FirstToken, Lex;
    if ts == [] {
      assert Lex("", offset) == Ok([]) by { LexEmpty(offset); }
    } else {
      SeparatedTail(ts);
      RenderDelimits(ts);
      LexRender(Render(ts[1..]), ts[1..], offset + |RenderToken(ts[0])|);
      LexCons(text, ts[0], Render(ts[1..]), ts[1..], offset);
      ConsBack(ts);
    }
  }

  lemma ConsBack<T>(s: seq<T>)
    requires s != []
    ensures [s[0]] + s[1..] == s
  {
  }
}

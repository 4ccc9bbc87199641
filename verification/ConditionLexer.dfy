/**
 * Lexer of the condition DSL: the source text of an expression becomes a token list. `Lex` reads one token after the
 * other off the text that remains; the index loops below it are proved to compute it.
 */
module ConditionLexer {
  import opened Results
  import opened RustText

  datatype Token = LParen | RParen | Comma | And | Or | Not | Ident(name: string) | Number(value: int)

  /** Every way the front end itself can refuse an expression. */
  datatype SyntaxError =
    | EmptyExpression
    | UnexpectedCharacter(c: char, offset: nat)
    | InvalidNumber(text: string)
    | TooManyTokens
    | TooDeep
    | ExpectedClose(found: Option<Token>)
    | ExpectedExpression(found: Option<Token>)
    | ExpectedOpen(predicateName: string)
    | ExpectedArgument(predicateName: string, found: Option<Token>)
    | ExpectedPredicateClose(predicateName: string)
    | TrailingInput(position: nat)
    | OutOfRange(what: string, n: int)
    | UnknownPredicate(predicateName: string, arity: nat)

  const I64_MIN: int := -0x8000_0000_0000_0000
  const I64_MAX: int := 0x7FFF_FFFF_FFFF_FFFF

  predicate IsWordChar(c: char) { IsAlpha(c) || IsDigit(c) || c == '_' }

  /** Length of the longest prefix of digits. */
  function DigitRun(s: string): (n: nat)
    ensures n <= |s|
  {
    if s != "" && IsDigit(s[0]) then 1 + DigitRun(s[1..]) else 0
  }

  /** Length of the longest prefix of word characters. */
  function WordRun(s: string): (n: nat)
    ensures n <= |s|
  {
    if s != "" && IsWordChar(s[0]) then 1 + WordRun(s[1..]) else 0
  }

  predicate AllDigits(s: string) { forall i :: 0 <= i < |s| ==> IsDigit(s[i]) }

  /** Decimal value of a string of digits. */
  function DecimalValue(s: string): (n: nat)
    requires AllDigits(s)
  {
    if s == "" then 0 else 10 * DecimalValue(s[..|s| - 1]) + (s[|s| - 1] as int - '0' as int)
  }

  lemma {:induction false} DigitRunIsDigits(s: string)
    ensures AllDigits(s[..DigitRun(s)])
    ensures DigitRun(s) < |s| ==> !IsDigit(s[DigitRun(s)])
  {
    if s != "" && IsDigit(s[0]) { DigitRunIsDigits(s[1..]); }
  }

  predicate StartsNumber(s: string) {
    s != "" && (IsDigit(s[0]) || (s[0] == '-' && |s| > 1 && IsDigit(s[1])))
  }

  /** Length of the number literal at the start of `s`, sign included. */
  function NumberRun(s: string): (n: nat)
    requires StartsNumber(s)
    ensures 0 < n <= |s|
  {
    if s[0] == '-' then 1 + DigitRun(s[1..]) else DigitRun(s)
  }

  /** Value of the number literal at the start of `s`. */
  function NumberAt(s: string): int
    requires StartsNumber(s)
  {
    DigitRunIsDigits(s);
    DigitRunIsDigits(s[1..]);
    if s[0] == '-' then -(DecimalValue(s[1..][..DigitRun(s[1..])]) as int) else DecimalValue(s[..DigitRun(s)])
  }

  function WordToken(text: string): Token {
    if text == "NOT" then Not else Ident(text)
  }

  function Push(t: Token, r: Result<seq<Token>, SyntaxError>): Result<seq<Token>, SyntaxError> {
    if r.Ok? then Ok([t] + r.value) else r
  }

  function PushAll(ts: seq<Token>, r: Result<seq<Token>, SyntaxError>): Result<seq<Token>, SyntaxError> {
    if r.Ok? then Ok(ts + r.value) else r
  }

  /** The token at the start of `s` and its length, where `offset` characters precede `s` in the expression. */
  function FirstToken(s: string, offset: nat): (r: Result<(Token, nat), SyntaxError>)
    requires s != ""
    ensures r.Ok? ==> 0 < r.value.1 <= |s|
  {
    if s[0] == '(' then Ok((LParen, 1))
    else if s[0] == ')' then Ok((RParen, 1))
    else if s[0] == ',' then Ok((Comma, 1))
    else if s[0] == '&' && |s| > 1 && s[1] == '&' then Ok((And, 2))
    else if s[0] == '|' && |s| > 1 && s[1] == '|' then Ok((Or, 2))
    else if StartsNumber(s) then
      if I64_MIN <= NumberAt(s) <= I64_MAX then Ok((Number(NumberAt(s)), NumberRun(s)))
      else Err(InvalidNumber(s[..NumberRun(s)]))
    else if IsAlpha(s[0]) then Ok((WordToken(s[..WordRun(s)]), WordRun(s)))
    else Err(UnexpectedCharacter(s[0], offset))
  }

  /** The token list of `s`. */
  function Lex(s: string, offset: nat): Result<seq<Token>, SyntaxError>
    decreases |s|
  {
    if s == "" then Ok([])
    else if IsWhitespace(s[0]) then Lex(s[1..], offset + 1)
    else
      match FirstToken(s, offset)
      case Err(e) => Err(e)
      case Ok((t, k)) => Push(t, Lex(s[k..], offset + k))
  }

  /** `text.parse::<i64>()` on a literal the scan delimited. */
  method ParseI64(text: string) returns (n: Option<int>)
    requires StartsNumber(text) && NumberRun(text) == |text|
    ensures n == if I64_MIN <= NumberAt(text) <= I64_MAX then Some(NumberAt(text)) else None
  {
    var negative := text[0] == '-';
    var digits := if negative then text[1..] else text;
    DigitRunIsDigits(digits);
    assert digits[..|digits|] == digits;
    var value := 0;
    for i := 0 to |digits|
      invariant value == DecimalValue(digits[..i])
    {
      assert digits[..i + 1][..i] == digits[..i];
      value := 10 * value + (digits[i] as int - '0' as int);
    }
    if negative { value := -value; }
    n := if I64_MIN <= value <= I64_MAX then Some(value) else None;
  }

  lemma DigitRunOfPrefix(s: string)
    ensures DigitRun(s[..DigitRun(s)]) == DigitRun(s)
  {
    if s != "" && IsDigit(s[0]) {
      DigitRunOfPrefix(s[1..]);
      assert s[..DigitRun(s)][1..] == s[1..][..DigitRun(s[1..])];
    }
  }

  lemma NumberOfPrefix(s: string)
    requires StartsNumber(s)
    ensures var text := s[..NumberRun(s)];
            StartsNumber(text) && NumberRun(text) == |text| && NumberAt(text) == NumberAt(s)
  {
    var text := s[..NumberRun(s)];
    if s[0] == '-' {
      DigitRunOfPrefix(s[1..]);
      assert text[1..] == s[1..][..DigitRun(s[1..])];
      assert text[1..][..|text| - 1] == text[1..];
    } else {
      DigitRunOfPrefix(s);
      assert text[..|text|] == text;
    }
  }

  lemma PushAllStep(tokens: seq<Token>, t: Token, r: Result<seq<Token>, SyntaxError>)
    ensures PushAll(tokens, Push(t, r)) == PushAll(tokens + [t], r)
  {
    if r.Ok? { assert tokens + ([t] + r.value) == (tokens + [t]) + r.value; }
  }

  /** End of the run of digits that starts at `start`. */
  method SkipDigits(chars: string, start: nat) returns (end: nat)
    requires start <= |chars|
    ensures end == start + DigitRun(chars[start..]) <= |chars|
  {
    end := start;
    while end < |chars| && IsDigit(chars[end])
      invariant start <= end <= |chars|
      invariant end - start + DigitRun(chars[end..]) == DigitRun(chars[start..])
    {
      assert chars[end..][1..] == chars[end + 1..];
      end := end + 1;
    }
  }

  /** End of the run of word characters that starts at `start`. */
  method SkipWord(chars: string, start: nat) returns (end: nat)
    requires start <= |chars|
    ensures end == start + WordRun(chars[start..]) <= |chars|
  {
    end := start;
    while end < |chars| && IsWordChar(chars[end])
      invariant start <= end <= |chars|
      invariant end - start + WordRun(chars[end..]) == WordRun(chars[start..])
    {
      assert chars[end..][1..] == chars[end + 1..];
      end := end + 1;
    }
  }

  /** The number literal that starts at `start`, and where it ends. */
  method ScanNumber(chars: string, start: nat) returns (end: nat, r: Result<Token, SyntaxError>)
    requires start < |chars| && StartsNumber(chars[start..])
    ensures start < end <= |chars| && end == start + NumberRun(chars[start..])
    ensures r == (if I64_MIN <= NumberAt(chars[start..]) <= I64_MAX then Ok(Number(NumberAt(chars[start..])))
                  else Err(InvalidNumber(chars[start..end])))
  {
    ghost var rest := chars[start..];
    assert rest[1..] == chars[start + 1..];
    end := SkipDigits(chars, if chars[start] == '-' then start + 1 else start);
    var text := chars[start..end];
    assert text == rest[..NumberRun(rest)];
    NumberOfPrefix(rest);
    var n := ParseI64(text);
    r := if n.Some? then Ok(Number(n.value)) else Err(InvalidNumber(text));
  }

  /** The token that starts at `start`, and the index after it. */
  method NextToken(chars: string, start: nat) returns (next: nat, r: Result<Token, SyntaxError>)
    requires start < |chars|
    ensures start < next <= |chars|
    ensures FirstToken(chars[start..], start) ==
            match r case Ok(t) => Ok((t, next - start)) case Err(e) => Err(e)
  {
    var c := chars[start];
    ghost var rest := chars[start..];
    assert forall k :: 0 <= k <= |rest| ==> rest[k..] == chars[start + k..];
    var doubled := start + 1 < |chars| && chars[start + 1] == c;
    if c == '(' { next, r := start + 1, Ok(LParen); }
    else if c == ')' { next, r := start + 1, Ok(RParen); }
    else if c == ',' { next, r := start + 1, Ok(Comma); }
    else if c == '&' && doubled { next, r := start + 2, Ok(And); }
    else if c == '|' && doubled { next, r := start + 2, Ok(Or); }
    else if IsDigit(c) || (c == '-' && start + 1 < |chars| && IsDigit(chars[start + 1])) {
      next, r := ScanNumber(chars, start);
      assert chars[start..next] == rest[..NumberRun(rest)];
    } else if IsAlpha(c) {
      next := SkipWord(chars, start);
      var text := chars[start..next];
      assert text == rest[..WordRun(rest)];
      r := Ok(if text == "NOT" then Not else Ident(text));
    } else {
      next, r := start + 1, Err(UnexpectedCharacter(c, start));
    }
  }

  method Tokenize(input: string) returns (r: Result<seq<Token>, SyntaxError>)
    ensures r == Lex(input, 0)
  {
    hide FirstToken;
    var tokens: seq<Token> := [];
    var i := 0;
    assert input[0..] == input;
    assert Lex(input, 0).Ok? ==> tokens + Lex(input, 0).value == Lex(input, 0).value;
    while i < |input|
      invariant 0 <= i <= |input|
      invariant Lex(input, 0) == PushAll(tokens, Lex(input[i..], i))
    {
      if IsWhitespace(input[i]) {
        assert input[i..][1..] == input[i + 1..];
        i := i + 1;
      } else {
        var next, token := NextToken(input, i);
        assert input[i..][next - i..] == input[next..];
        if token.Err? { return Err(token.error); }
        PushAllStep(tokens, token.value, Lex(input[next..], next));
        tokens, i := tokens + [token.value], next;
      }
    }
    assert input[i..] == "" && tokens + [] == tokens;
    r := Ok(tokens);
  }
}

/** What texts the lexer reads as what tokens, said without the lexer. */
module ConditionSpelling {
  import opened Results
  import opened RustText
  import opened ConditionLexer
  import opened ConditionParser
  import opened ConditionFusion
  import opened ConditionGrammar
  import opened ConditionRendering

  // Spelling

  predicate Letter(c: char) { 'a' <= c <= 'z' || 'A' <= c <= 'Z' }

  predicate Digit(c: char) { '0' <= c <= '9' }

  predicate InWord(c: char) { Letter(c) || Digit(c) || c == '_' }

  predicate IsWordText(x: string) { x != "" && Letter(x[0]) && forall k :: 0 <= k < |x| ==> InWord(x[k]) }

  function Zeros(z: nat): (s: string)
    ensures |s| == z
  {
    seq(z, _ => '0')
  }

  /** A sign or none, zeros or none, and the decimal digits of the number. */
  ghost predicate IsNumberText(x: string, n: int) {
    exists z: nat :: (n >= 0 && x == Zeros(z) + Digits(n)) || (n <= 0 && x == "-" + (Zeros(z) + Digits(-n)))
  }

  /** `x` is the text of the token `t`. */
  ghost predicate IsText(t: Token, x: string) {
    match t
    case LParen => x == "("
    case RParen => x == ")"
    case Comma => x == ","
    case And => x == "&&"
    case Or => x == "||"
    case Not => x == "NOT"
    case Ident(name) => x == name && IsWordText(name) && name != "NOT"
    case Number(n) => I64_MIN <= n <= I64_MAX && IsNumberText(x, n)
  }

  /** The token `t` ends where `rest` begins: a word is not followed by a word character, a number by no digit. */
  predicate Ends(t: Token, rest: string) {
    rest == "" || (if t.Ident? || t.Not? then !InWord(rest[0]) else t.Number? ==> !Digit(rest[0]))
  }

  /** The first `k` characters of `s` are texts of the tokens, with any white space in front of each. */
  ghost predicate SpelledUpTo(s: string, ts: seq<Token>, k: nat)
    decreases |ts|
  {
    if ts == [] then k == 0 else
    exists i: nat, j: nat ::
      && i < j <= k && j <= |s| && AllWhite(s[..i]) && IsText(ts[0], s[i..j]) && Ends(ts[0], s[j..])
      && SpelledUpTo(s[j..], ts[1..], k - j)
  }

  /** `s` is texts of the tokens, with any white space around each. */
  ghost predicate Spells(s: string, ts: seq<Token>) {
    exists k: nat :: k <= |s| && SpelledUpTo(s, ts, k) && AllWhite(s[k..])
  }

  // Every spelling is read

  lemma {:induction false} WhiteSkipped(s: string, i: nat, offset: nat)
    requires i <= |s| && AllWhite(s[..i])
    ensures Lex(s, offset) == Lex(s[i..], offset + i)
    decreases i
  {
    hide FirstToken, IsWhitespace;
    if i == 0 {
      assert s[0..] == s;
    } else {
      assert IsWhitespace(s[..i][0]);
      assert s[..i][1..] == s[1..][..i - 1] && s[1..][i - 1..] == s[i..];
      WhiteSkipped(s[1..], i - 1, offset + 1);
      LexWhite(s, offset);
    }
  }

  lemma LexWhite(s: string, offset: nat)
    requires s != "" && IsWhitespace(s[0])
    ensures Lex(s, offset) == Lex(s[1..], offset + 1)
  {
    hide FirstToken, IsWhitespace;
  }

  lemma {:induction false} WordRunIs(x: string, rest: string)
    requires (forall k :: 0 <= k < |x| ==> InWord(x[k])) && (rest == "" || !InWord(rest[0]))
    ensures WordRun(x + rest) == |x|
  {
    if x == "" {
      assert x + rest == rest;
    } else {
      assert (x + rest)[1..] == x[1..] + rest;
      WordRunIs(x[1..], rest);
    }
  }

  lemma {:induction false} ZerosAddNothing(z: nat, d: string)
    requires AllDigits(d)
    ensures AllDigits(Zeros(z) + d) && DecimalValue(Zeros(z) + d) == DecimalValue(d)
    decreases |d|, z
  {
    var x := Zeros(z) + d;
    if d != "" {
      ZerosAddNothing(z, d[..|d| - 1]);
      assert x[..|x| - 1] == Zeros(z) + d[..|d| - 1];
    } else if z > 0 {
      ZerosAddNothing(z - 1, d);
      assert x[..z - 1] == Zeros(z - 1) + d;
    }
  }

  lemma NaturalReads(z: nat, n: nat, rest: string)
    requires rest == "" || !Digit(rest[0])
    ensures var s := Zeros(z) + Digits(n) + rest;
            StartsNumber(s) && NumberRun(s) == z + |Digits(n)| && NumberAt(s) == n
  {
    hide Digits, Zeros;
    var x := Zeros(z) + Digits(n);
    ZerosAddNothing(z, Digits(n));
    DigitRunAppend(x, rest);
    assert (x + rest)[..|x|] == x && (x + rest)[0] == x[0];
  }

  lemma NegativeReads(z: nat, n: nat, rest: string)
    requires rest == "" || !Digit(rest[0])
    ensures var s := "-" + (Zeros(z) + Digits(n)) + rest;
            StartsNumber(s) && NumberRun(s) == 1 + z + |Digits(n)| && NumberAt(s) == 0 - n
  {
    hide Digits, Zeros;
    var x := Zeros(z) + Digits(n);
    var s := "-" + x + rest;
    ZerosAddNothing(z, Digits(n));
    DigitRunAppend(x, rest);
    assert s[1..] == x + rest && s[0] == '-' && s[1] == x[0] && s[1..][..|x|] == x;
  }

  /** The text of a number in front of no digit is scanned as that number. */
  lemma NumberScans(x: string, n: int, rest: string)
    requires IsNumberText(x, n) && (rest == "" || !Digit(rest[0]))
    ensures x != "" && StartsNumber(x + rest) && NumberRun(x + rest) == |x| && NumberAt(x + rest) == n
  {
    hide Digits, Zeros, StartsNumber, NumberRun, NumberAt;
    var z: nat :| (n >= 0 && x == Zeros(z) + Digits(n)) || (n <= 0 && x == "-" + (Zeros(z) + Digits(-n)));
    if n >= 0 && x == Zeros(z) + Digits(n) { NaturalReads(z, n, rest); } else { NegativeReads(z, -n, rest); }
  }

  lemma NumberStarts(x: string)
    requires StartsNumber(x)
    ensures x != "" && !IsWhitespace(x[0])
  {
  }

  /** A text that ends is read as its token. */
  lemma TextIsRead(t: Token, x: string, rest: string, offset: nat)
    requires IsText(t, x) && Ends(t, rest)
    ensures x != "" && FirstToken(x + rest, offset) == Ok((t, |x|)) && !IsWhitespace((x + rest)[0])
  {
    hide Digits, NumberAt, NumberRun, StartsNumber, WordRun, IsNumberText;
    match t
    case Ident(name) => WordIsRead(x, rest, offset);
    case Not => WordIsRead(x, rest, offset);
    case Number(n) =>
      NumberScans(x, n, rest);
      NumberStarts(x + rest);
      NumberFirst(x + rest, offset);
    case _ =>
  }

  lemma WordIsRead(x: string, rest: string, offset: nat)
    requires IsWordText(x) && (rest == "" || !InWord(rest[0]))
    ensures FirstToken(x + rest, offset) == Ok((WordToken(x), |x|)) && !IsWhitespace((x + rest)[0])
  {
    WordRunIs(x, rest);
    assert (x + rest)[..|x|] == x && (x + rest)[0] == x[0];
  }

  lemma OneTokenRead(s: string, t: Token, i: nat, j: nat, offset: nat)
    requires i < j <= |s| && AllWhite(s[..i]) && IsText(t, s[i..j]) && Ends(t, s[j..])
    ensures Lex(s, offset) == Push(t, Lex(s[j..], offset + j))
  {
    hide FirstToken, IsText, Ends, AllWhite, Lex;
    WhiteSkipped(s, i, offset);
    TextIsRead(t, s[i..j], s[j..], offset + i);
    assert s[i..] == s[i..j] + s[j..];
    LexRead(s[i..j], t, s[j..], offset + i);
  }

  /** The lexer reads what is spelled and goes on behind it. */
  lemma {:induction false} SpelledIsRead(s: string, ts: seq<Token>, k: nat, offset: nat)
    requires SpelledUpTo(s, ts, k) && k <= |s|
    ensures Lex(s, offset) == PushAll(ts, Lex(s[k..], offset + k))
    decreases |ts|
  {
    hide FirstToken, IsText, Ends, AllWhite, Lex, Push, PushAll;
    if ts == [] {
      NothingPushed(Lex(s, offset));
      assert s[0..] == s;
    } else {
      var i: nat, j: nat :|
        && i < j <= k && j <= |s| && AllWhite(s[..i]) && IsText(ts[0], s[i..j]) && Ends(ts[0], s[j..])
        && SpelledUpTo(s[j..], ts[1..], k - j);
      OneTokenRead(s, ts[0], i, j, offset);
      SpelledIsRead(s[j..], ts[1..], k - j, offset + j);
      assert s[j..][k - j..] == s[k..];
      PushedOneMore(ts, Lex(s[k..], offset + k));
    }
  }

  lemma NothingPushed(r: Result<seq<Token>, SyntaxError>)
    ensures PushAll([], r) == r
  {
    var none: seq<Token> := [];
    if r.Ok? { assert none + r.value == r.value; }
  }

  lemma PushedOneMore(ts: seq<Token>, r: Result<seq<Token>, SyntaxError>)
    requires ts != []
    ensures Push(ts[0], PushAll(ts[1..], r)) == PushAll(ts, r)
  {
    if r.Ok? { assert [ts[0]] + (ts[1..] + r.value) == ts + r.value; }
  }

  // Whatever is read is spelled

  /** A text of digits is zeros and the digits of its value. */
  lemma {:induction false} DigitsText(x: string) returns (z: nat)
    requires AllDigits(x) && x != ""
    ensures x == Zeros(z) + Digits(DecimalValue(x))
    decreases |x|
  {
    hide Digits, Zeros;
    var init, c := x[..|x| - 1], x[|x| - 1];
    assert x == init + [c];
    if init == "" {
      z := 0;
      OneDigit(x);
    } else {
      z := DigitsText(init);
      z := OneDigitMore(init, c, z);
    }
  }

  lemma OneDigit(x: string)
    requires AllDigits(x) && |x| == 1
    ensures x == Zeros(0) + Digits(DecimalValue(x))
  {
    LastDigit(x[0] as int - '0' as int);
    assert DecimalValue(x[..0]) == 0 && x == Zeros(0) + [x[0]];
  }

  lemma OneDigitMore(init: string, c: char, y: nat) returns (z: nat)
    requires AllDigits(init) && IsDigit(c) && init == Zeros(y) + Digits(DecimalValue(init))
    ensures AllDigits(init + [c]) && init + [c] == Zeros(z) + Digits(DecimalValue(init + [c]))
  {
    hide Digits;
    var v, d := DecimalValue(init), c as int - '0' as int;
    assert (init + [c])[..|init|] == init;
    LastDigit(d);
    LastDigit(0);
    if v == 0 {
      z := y + 1;
      assert Zeros(y) + "0" == Zeros(y + 1);
    } else {
      z := y;
      MoreDigits(v, d);
    }
  }

  lemma LastDigit(d: nat)
    requires d < 10
    ensures Digits(d) == [('0' as int + d) as char]
  {
  }

  lemma MoreDigits(v: nat, d: nat)
    requires v > 0 && d < 10
    ensures Digits(10 * v + d) == Digits(v) + [('0' as int + d) as char]
  {
    assert (10 * v + d) / 10 == v && (10 * v + d) % 10 == d;
  }

  /** What the scan takes for a number is the text of that number. */
  lemma ScannedIsText(s: string)
    requires StartsNumber(s)
    ensures IsNumberText(s[..NumberRun(s)], NumberAt(s))
    ensures NumberRun(s) < |s| ==> !Digit(s[NumberRun(s)])
  {
    hide Digits, Zeros, DecimalValue;
    var signed := s[0] == '-';
    var body := if signed then s[1..] else s;
    DigitRunIsDigits(body);
    assert DigitRun(body) > 0;
    var x := body[..DigitRun(body)];
    var z := DigitsText(x);
    assert s[..NumberRun(s)] == if signed then "-" + x else x;
  }

  lemma {:induction false} WordRunIsWord(s: string)
    ensures forall k :: 0 <= k < WordRun(s) ==> InWord(s[k])
    ensures WordRun(s) < |s| ==> !InWord(s[WordRun(s)])
  {
    if s != "" && IsWordChar(s[0]) {
      WordRunIsWord(s[1..]);
      assert forall k :: 0 < k < WordRun(s) ==> s[k] == s[1..][k - 1];
    }
  }

  lemma ReadIsText(s: string, offset: nat)
    requires s != "" && FirstToken(s, offset).Ok?
    ensures var (t, k) := FirstToken(s, offset).value; IsText(t, s[..k]) && Ends(t, s[k..])
  {
    hide IsNumberText, NumberAt, NumberRun, WordRun;
    var (t, k) := FirstToken(s, offset).value;
    match t
    case Number(n) => ScannedIsText(s);
    case Ident(name) => WordRunIsWord(s);
    case Not => WordRunIsWord(s);
    case _ => assert k < |s| || s[k..] == "";
  }

  /** White space in front changes no spelling. */
  lemma WhiteFirst(s: string, ts: seq<Token>)
    requires s != "" && IsWhitespace(s[0]) && Spells(s[1..], ts)
    ensures Spells(s, ts)
  {
    hide IsText, Ends, IsWhitespace;
    var k: nat :| k <= |s[1..]| && SpelledUpTo(s[1..], ts, k) && AllWhite(s[1..][k..]);
    if ts == [] {
      assert SpelledUpTo(s, ts, 0);
      assert forall m :: 0 < m < |s| ==> s[m] == s[1..][0..][m - 1];
      assert s[0..] == s;
    } else {
      var i: nat, j: nat :|
        && i < j <= k && j <= |s[1..]| && AllWhite(s[1..][..i]) && IsText(ts[0], s[1..][i..j])
        && Ends(ts[0], s[1..][j..]) && SpelledUpTo(s[1..][j..], ts[1..], k - j);
      Shifted(s, ts, i, j, k);
      assert s[1..][k..] == s[k + 1..];
    }
  }

  lemma FrontWhite(s: string, k: nat, i: nat)
    requires s != "" && IsWhitespace(s[0]) && k == 0 <= i <= |s[1..]| && AllWhite(s[1..][k..i])
    ensures AllWhite(s[..i + 1]) && AllWhite(s[0..i + 1])
  {
    hide IsWhitespace;
    var front := s[..i + 1];
    assert front == [s[0]] + s[1..][k..i] && front == s[0..i + 1];
  }

  lemma Shifted(s: string, ts: seq<Token>, i: nat, j: nat, k: nat)
    requires s != "" && IsWhitespace(s[0]) && ts != [] && i < j <= k && j <= |s[1..]| && AllWhite(s[1..][..i])
    requires IsText(ts[0], s[1..][i..j]) && Ends(ts[0], s[1..][j..]) && SpelledUpTo(s[1..][j..], ts[1..], k - j)
    ensures SpelledUpTo(s, ts, k + 1)
  {
    hide IsText, Ends, IsWhitespace;
    assert s[1..][0..i] == s[1..][..i];
    assert s[1..][i..j] == s[i + 1..j + 1] && s[1..][j..] == s[j + 1..];
    FrontWhite(s, 0, i);
  }

  lemma TokenFirst(s: string, t: Token, k: nat, ts: seq<Token>)
    requires 0 < k <= |s| && IsText(t, s[..k]) && Ends(t, s[k..]) && Spells(s[k..], ts)
    ensures Spells(s, [t] + ts)
  {
    hide IsText, Ends, SpelledUpTo;
    var n: nat :| n <= |s[k..]| && SpelledUpTo(s[k..], ts, n) && AllWhite(s[k..][n..]);
    TokenSpelled(s, t, k, ts, n);
    assert s[k..][n..] == s[k + n..];
  }

  lemma TokenSpelled(s: string, t: Token, k: nat, ts: seq<Token>, n: nat)
    requires 0 < k <= |s| && IsText(t, s[..k]) && Ends(t, s[k..]) && SpelledUpTo(s[k..], ts, n)
    ensures SpelledUpTo(s, [t] + ts, k + n)
  {
    hide IsText, Ends;
    assert s[0..k] == s[..k] && ([t] + ts)[1..] == ts && AllWhite(s[..0]);
  }

  lemma {:induction false} ReadIsSpelled(s: string, offset: nat)
    requires Lex(s, offset).Ok?
    ensures Spells(s, Lex(s, offset).value)
    decreases |s|
  {
    hide FirstToken, IsText, Ends, Spells, IsWhitespace;
    if s == "" {
      NothingSpelled(s);
    } else if IsWhitespace(s[0]) {
      ReadIsSpelled(s[1..], offset + 1);
      WhiteFirst(s, Lex(s, offset).value);
    } else {
      var (t, k) := FirstToken(s, offset).value;
      ReadIsText(s, offset);
      ReadIsSpelled(s[k..], offset + k);
      TokenFirst(s, t, k, Lex(s[k..], offset + k).value);
    }
  }

  lemma NothingSpelled(s: string)
    requires s == ""
    ensures Spells(s, [])
  {
    assert SpelledUpTo(s, [], 0) && AllWhite(s[0..]);
  }

  /** The lexer reads a text as a token list exactly if the text spells it. */
  lemma LexIff(s: string, ts: seq<Token>, offset: nat)
    ensures Lex(s, offset) == Ok(ts) <==> Spells(s, ts)
  {
    hide Lex, SpelledUpTo;
    if Lex(s, offset) == Ok(ts) { ReadIsSpelled(s, offset); }
    if Spells(s, ts) {
      var k: nat :| k <= |s| && SpelledUpTo(s, ts, k) && AllWhite(s[k..]);
      SpelledIsRead(s, ts, k, offset);
      assert s[k..][..|s| - k] == s[k..];
      WhiteSkipped(s[k..], |s| - k, offset + k);
      assert s[k..][|s| - k..] == "" && ts + [] == ts;
      LexEmpty(offset + |s|);
    }
  }

  // What the lexer refuses

  /** A maximal number text at the start of `r` that is out of range, or a character that starts no token. */
  ghost predicate Refused(r: string, offset: nat, e: SyntaxError) {
    match e
    case InvalidNumber(text) =>
      && text <= r && (|text| < |r| ==> !Digit(r[|text|]))
      && exists n :: IsNumberText(text, n) && !(I64_MIN <= n <= I64_MAX)
    case UnexpectedCharacter(c, at) =>
      && r != "" && c == r[0] && at == offset && StartsNothing(r)
    case _ => false
  }

  /** No token starts here: no bracket, comma, letter or digit, no doubled `&` or `|`, no sign in front of a digit. */
  predicate StartsNothing(r: string)
    requires r != ""
  {
    && r[0] != '(' && r[0] != ')' && r[0] != ',' && !Letter(r[0]) && !Digit(r[0]) && !IsWhitespace(r[0])
    && (r[0] == '-' || r[0] == '&' || r[0] == '|' ==>
          |r| == 1 || (if r[0] == '-' then !Digit(r[1]) else r[1] != r[0]))
  }

  lemma RefusedIff(r: string, offset: nat, e: SyntaxError)
    requires r != "" && !IsWhitespace(r[0])
    ensures FirstToken(r, offset) == Err(e) <==> Refused(r, offset, e)
  {
    hide IsNumberText, NumberAt, NumberRun, IsWhitespace, WordRun;
    if FirstToken(r, offset) == Err(e) && StartsNumber(r) { ScannedIsText(r); }
    if e.InvalidNumber? && Refused(r, offset, e) {
      var text := e.text;
      var n :| IsNumberText(text, n) && !(I64_MIN <= n <= I64_MAX);
      assert r == text + r[|text|..];
      NumberScans(text, n, r[|text|..]);
    }
  }

  /** The lexer refuses a text exactly if what is spelled up to some place is followed by what starts no token. */
  ghost predicate RefusedBehind(s: string, e: SyntaxError) {
    exists ts: seq<Token>, k: nat, i: nat :: RefusedAt(s, ts, k, i, e, 0)
  }

  ghost predicate RefusedAt(s: string, ts: seq<Token>, k: nat, i: nat, e: SyntaxError, offset: nat) {
    && k <= i < |s| && SpelledUpTo(s, ts, k) && AllWhite(s[k..i]) && !IsWhitespace(s[i])
    && Refused(s[i..], offset + i, e)
  }

  lemma RefusalIsRead(s: string, ts: seq<Token>, k: nat, i: nat, e: SyntaxError, offset: nat)
    requires RefusedAt(s, ts, k, i, e, offset)
    ensures Lex(s, offset) == Err(e)
  {
    hide Lex, SpelledUpTo, Refused, IsWhitespace, FirstToken;
    SpelledIsRead(s, ts, k, offset);
    assert s[k..][..i - k] == s[k..i] && s[k..][i - k..] == s[i..];
    WhiteSkipped(s[k..], i - k, offset + k);
    RefusedIff(s[i..], offset + i, e);
    LexRefused(s[i..], offset + i, e);
  }

  lemma LexRefused(r: string, offset: nat, e: SyntaxError)
    requires r != "" && !IsWhitespace(r[0]) && FirstToken(r, offset) == Err(e)
    ensures Lex(r, offset) == Err(e)
  {
    hide FirstToken, IsWhitespace;
  }

  lemma WhiteRefusal(s: string, ts: seq<Token>, k: nat, i: nat, e: SyntaxError, offset: nat)
    requires s != "" && IsWhitespace(s[0]) && RefusedAt(s[1..], ts, k, i, e, offset + 1)
    ensures RefusedAt(s, ts, if ts == [] then 0 else k + 1, i + 1, e, offset)
  {
    hide SpelledUpTo, Refused, IsWhitespace;
    NothingUpTo(s[1..], ts, k);
    WhiteShift(s, ts, k, i);
    assert s[1..][i..] == s[i + 1..];
  }

  lemma NothingUpTo(s: string, ts: seq<Token>, k: nat)
    requires SpelledUpTo(s, ts, k)
    ensures ts == [] ==> k == 0
  {
  }

  lemma TokenRefusal(s: string, t: Token, n: nat, ts: seq<Token>, k: nat, i: nat, e: SyntaxError, offset: nat)
    requires 0 < n <= |s| && IsText(t, s[..n]) && Ends(t, s[n..]) && RefusedAt(s[n..], ts, k, i, e, offset + n)
    ensures RefusedAt(s, [t] + ts, n + k, n + i, e, offset)
  {
    hide SpelledUpTo, Refused, IsWhitespace, IsText, Ends;
    TokenSpelled(s, t, n, ts, k);
    assert s[n..][i..] == s[n + i..] && s[n..][k..i] == s[n + k..n + i];
  }

  lemma FirstRefusal(s: string, e: SyntaxError, offset: nat)
    requires s != "" && !IsWhitespace(s[0]) && Refused(s, offset, e)
    ensures RefusedAt(s, [], 0, 0, e, offset)
  {
    hide Refused, IsWhitespace;
    assert s[0..] == s;
  }

  lemma {:induction false} RefusalIsSpelled(s: string, offset: nat) returns (ts: seq<Token>, k: nat, i: nat)
    requires Lex(s, offset).Err?
    ensures RefusedAt(s, ts, k, i, Lex(s, offset).error, offset)
    decreases |s|
  {
    hide FirstToken, IsText, Ends, Refused, IsWhitespace, RefusedAt;
    var e := Lex(s, offset).error;
    if IsWhitespace(s[0]) {
      ts, k, i := RefusalIsSpelled(s[1..], offset + 1);
      WhiteRefusal(s, ts, k, i, e, offset);
      k, i := if ts == [] then 0 else k + 1, i + 1;
    } else if FirstToken(s, offset).Err? {
      ts, k, i := [], 0, 0;
      RefusedIff(s, offset, e);
      FirstRefusal(s, e, offset);
    } else {
      var (t, n) := FirstToken(s, offset).value;
      ReadIsText(s, offset);
      ts, k, i := RefusalIsSpelled(s[n..], offset + n);
      TokenRefusal(s, t, n, ts, k, i, e, offset);
      ts, k, i := [t] + ts, n + k, n + i;
    }
  }

  lemma WhiteShift(s: string, ts: seq<Token>, k: nat, i: nat)
    requires s != "" && IsWhitespace(s[0]) && k <= i <= |s[1..]| && SpelledUpTo(s[1..], ts, k) && AllWhite(s[1..][k..i])
    requires ts == [] ==> k == 0
    ensures ts == [] ==> SpelledUpTo(s, ts, 0) && AllWhite(s[0..i + 1])
    ensures ts != [] ==> SpelledUpTo(s, ts, k + 1) && AllWhite(s[k + 1..i + 1])
  {
    hide IsText, Ends, IsWhitespace;
    assert s[1..][k..i] == s[k + 1..i + 1];
    if ts == [] {
      FrontWhite(s, k, i);
    } else {
      var a: nat, b: nat :|
        && a < b <= k && b <= |s[1..]| && AllWhite(s[1..][..a]) && IsText(ts[0], s[1..][a..b])
        && Ends(ts[0], s[1..][b..]) && SpelledUpTo(s[1..][b..], ts[1..], k - b);
      Shifted(s, ts, a, b, k);
    }
  }

  lemma LexRefusesIff(s: string, e: SyntaxError)
    ensures Lex(s, 0) == Err(e) <==> RefusedBehind(s, e)
  {
    hide Lex, RefusedAt;
    if Lex(s, 0) == Err(e) { var ts, k, i := RefusalIsSpelled(s, 0); }
    if ts: seq<Token>, k: nat, i: nat :| RefusedAt(s, ts, k, i, e, 0) { RefusalIsRead(s, ts, k, i, e, 0); }
  }

  // Whole expressions

  /** White space behind a text changes nothing. */
  lemma {:induction false} WhiteBehind(s: string, b: string, offset: nat)
    requires AllWhite(b)
    ensures Lex(s + b, offset) == Lex(s, offset)
    decreases |s|
  {
    hide FirstToken, IsWhitespace;
    if s == "" {
      assert s + b == b && b[..|b|] == b && b[|b|..] == "";
      WhiteSkipped(b, |b|, offset);
    } else {
      assert (s + b)[1..] == s[1..] + b;
      if IsWhitespace(s[0]) {
        WhiteBehind(s[1..], b, offset + 1);
      } else {
        TokenInFront(s, b, offset);
        if FirstToken(s, offset).Ok? {
          var k := FirstToken(s, offset).value.1;
          assert (s + b)[k..] == s[k..] + b;
          WhiteBehind(s[k..], b, offset + k);
        }
      }
    }
  }

  lemma SecondStays(s: string, b: string)
    requires s != "" && AllWhite(b)
    ensures var x := s + b; x[0] == s[0] && (|s| > 1 ==> x[1] == s[1]) && (|s| == 1 && |x| > 1 ==> IsWhitespace(x[1]))
  {
    hide IsWhitespace;
  }

  lemma NumberInFront(s: string, b: string)
    requires s != "" && AllWhite(b)
    ensures StartsNumber(s + b) <==> StartsNumber(s)
    ensures StartsNumber(s) ==> NumberRun(s + b) == NumberRun(s) && NumberAt(s + b) == NumberAt(s)
    ensures StartsNumber(s) ==> (s + b)[..NumberRun(s)] == s[..NumberRun(s)]
  {
    hide DigitRun, DecimalValue;
    var x := s + b;
    SecondStays(s, b);
    RunsStop(s, b);
    RunsStop(s[1..], b);
    assert x[1..] == s[1..] + b;
    assert x[..DigitRun(s)] == s[..DigitRun(s)] && x[1..][..DigitRun(s[1..])] == s[1..][..DigitRun(s[1..])];
  }

  lemma TokenInFront(s: string, b: string, offset: nat)
    requires s != "" && AllWhite(b)
    ensures FirstToken(s + b, offset) == FirstToken(s, offset)
  {
    hide StartsNumber, NumberRun, NumberAt, WordRun, AllWhite;
    SecondStays(s, b);
    RunsStop(s, b);
    NumberInFront(s, b);
    assert (s + b)[..WordRun(s)] == s[..WordRun(s)];
  }

  lemma {:induction false} RunsStop(s: string, b: string)
    requires AllWhite(b)
    ensures DigitRun(s + b) == DigitRun(s) && WordRun(s + b) == WordRun(s)
  {
    if s == "" {
      assert s + b == b && (b != "" ==> IsWhitespace(b[0]));
    } else {
      assert (s + b)[1..] == s[1..] + b;
      RunsStop(s[1..], b);
    }
  }

  /** Trimming an expression changes none of its tokens. */
  lemma TrimmedSpells(input: string, ts: seq<Token>)
    ensures Spells(Trim(input), ts) <==> Spells(input, ts)
  {
    hide Lex, Trim, Spells, IsWhitespace;
    var i, j := TrimIs(input);
    LexIff(Trim(input), ts, i);
    LexIff(input, ts, 0);
    WhiteSkipped(input, i, 0);
    assert input[i..] == input[i..j] + input[j..];
    WhiteBehind(input[i..j], input[j..], i);
  }

  /**
   * The input spells a derivation of at most 4096 tokens, nested at most 64 deep, and the value is what the sink makes
   * of its tree.
   */
  ghost predicate Denotes<O, E>(input: string, d: OrD, s: Sink<O, E>, v: O) {
    Spells(input, SpellOr(d)) && |SpellOr(d)| <= 4096 && DepthOr(d) <= 64 && Fold(TreeOr(d), s) == Ok(v)
  }

  /** An expression is parsed to a value exactly if it has a derivation that denotes the value. */
  lemma ExpressionIff<O, E>(input: string, s: Sink<O, E>, v: O)
    ensures ParseText(input, s) == Ok(v) <==> exists d :: Denotes(input, d, s, v)
  {
    hide ParseText, Lex, Trim, Spells, Fold, TreeOr, DepthOr, SpellOr;
    ParseTextIff(input, s, v);
    forall ts ensures Lex(Trim(input), 0) == Ok(ts) <==> Spells(input, ts) {
      LexIff(Trim(input), ts, 0);
      TrimmedSpells(input, ts);
    }
    if ParseText(input, s) == Ok(v) {
      var ts := Lex(Trim(input), 0).value;
      var d :| Derives(d, ts) && DepthOr(d) <= MAX_CONDITION_DEPTH && Fold(TreeOr(d), s) == Ok(v);
      assert Denotes(input, d, s, v);
    }
    if d :| Denotes(input, d, s, v) {
      assert Derives(d, SpellOr(d));
    }
  }
}

/** Which tokens of a call are numbers: number literals built from their parts. */
module CommandNumbers {
  import opened Results
  import opened CommandParser

  // StringNumericLiteral, section 7.1.4.1 of ECMA-262, for a text that is trimmed and not empty

  datatype Exponent = NoExponent | Exponent(mark: char, sign: string, digits: string)

  datatype Numeral =
    | Infinite(sign: string)
    | Decimal(sign: string, whole: string, point: bool, fraction: string, exponent: Exponent)
    | Radix(mark: char, digits: string)

  predicate IsSign(s: string) { s == "" || s == "+" || s == "-" }

  predicate Decimals(s: string) { forall k :: 0 <= k < |s| ==> '0' <= s[k] <= '9' }

  predicate Hexes(s: string) {
    forall k :: 0 <= k < |s| ==> '0' <= s[k] <= '9' || 'a' <= s[k] <= 'f' || 'A' <= s[k] <= 'F'
  }

  predicate Octals(s: string) { forall k :: 0 <= k < |s| ==> '0' <= s[k] <= '7' }

  predicate Bits(s: string) { forall k :: 0 <= k < |s| ==> '0' <= s[k] <= '1' }

  predicate IsExponentPart(x: Exponent) {
    x.NoExponent? || ((x.mark == 'e' || x.mark == 'E') && IsSign(x.sign) && x.digits != "" && Decimals(x.digits))
  }

  predicate IsNumeral(n: Numeral) {
    match n
    case Infinite(sign) => IsSign(sign)
    case Decimal(sign, whole, point, fraction, exponent) =>
      && IsSign(sign) && Decimals(whole) && Decimals(fraction) && (point || fraction == "") && whole + fraction != ""
      && IsExponentPart(exponent)
    case Radix(mark, digits) =>
      && digits != ""
      && (|| ((mark == 'x' || mark == 'X') && Hexes(digits))
          || ((mark == 'o' || mark == 'O') && Octals(digits))
          || ((mark == 'b' || mark == 'B') && Bits(digits)))
  }

  function ExponentText(x: Exponent): string {
    match x case NoExponent => "" case Exponent(mark, sign, digits) => [mark] + sign + digits
  }

  function Unsigned(whole: string, point: bool, fraction: string, exponent: Exponent): string {
    whole + ((if point then "." + fraction else "") + ExponentText(exponent))
  }

  function NumeralText(n: Numeral): string {
    match n
    case Infinite(sign) => sign + "Infinity"
    case Decimal(sign, whole, point, fraction, exponent) => sign + Unsigned(whole, point, fraction, exponent)
    case Radix(mark, digits) => ['0', mark] + digits
  }

  // Digit runs

  lemma {:induction false} RunOf(a: string, b: string)
    requires Decimals(a) && (b == "" || !IsDigit(b[0]))
    ensures DigitRun(a + b) == |a|
  {
    if a == "" {
      assert a + b == b;
    } else {
      assert (a + b)[1..] == a[1..] + b;
      RunOf(a[1..], b);
    }
  }

  lemma {:induction false} RunIsDigits(s: string)
    ensures Decimals(s[..DigitRun(s)])
    ensures DigitRun(s) < |s| ==> !IsDigit(s[DigitRun(s)])
  {
    if s != "" && IsDigit(s[0]) {
      RunIsDigits(s[1..]);
      assert s[..DigitRun(s)] == [s[0]] + s[1..][..DigitRun(s[1..])];
    }
  }

  lemma AllDigitsIff(s: string)
    ensures DigitRun(s) == |s| <==> Decimals(s)
  {
    RunIsDigits(s);
    assert s[..|s|] == s;
    if Decimals(s) {
      RunOf(s, "");
      assert s + "" == s;
    }
  }

  // Exponents

  lemma ExponentReads(x: Exponent)
    requires IsExponentPart(x) && x.Exponent?
    ensures IsExponent(ExponentText(x)) && !IsDigit(ExponentText(x)[0]) && ExponentText(x)[0] != '.'
  {
    var text := ExponentText(x);
    AllDigitsIff(x.digits);
    if x.sign == "" {
      assert text[1..] == x.digits && IsDigit(text[1]);
    } else {
      assert text[2..] == x.digits;
    }
  }

  lemma ExponentSplits(s: string) returns (x: Exponent)
    requires IsExponent(s)
    ensures IsExponentPart(x) && x.Exponent? && ExponentText(x) == s
  {
    var signed := s[1] == '+' || s[1] == '-';
    var digits := if signed then s[2..] else s[1..];
    AllDigitsIff(digits);
    x := Exponent(s[0], if signed then [s[1]] else "", digits);
    assert ExponentText(x) == s;
  }

  lemma ExponentSplitsIf(s: string) returns (x: Exponent)
    requires s == "" || IsExponent(s)
    ensures IsExponentPart(x) && ExponentText(x) == s
  {
    if s == "" { x := NoExponent; } else { x := ExponentSplits(s); }
  }

  // Decimals without their sign

  lemma UnsignedReads(whole: string, point: bool, fraction: string, exponent: Exponent)
    requires Decimals(whole) && Decimals(fraction) && (point || fraction == "") && whole + fraction != ""
    requires IsExponentPart(exponent)
    ensures IsDecimal(Unsigned(whole, point, fraction, exponent))
  {
    hide IsExponent, ExponentText;
    var text := Unsigned(whole, point, fraction, exponent);
    var tail := ExponentText(exponent);
    if exponent.Exponent? { ExponentReads(exponent); } else { NoTail(exponent); }
    var rest := (if point then "." + fraction else "") + tail;
    RestStarts(point, fraction, tail);
    RunOf(whole, rest);
    assert text[|whole|..] == rest;
    if point {
      RunOf(fraction, tail);
      assert rest[1..] == fraction + tail && rest[1 + |fraction|..] == tail;
    } else {
      assert rest == tail && fraction == "";
    }
  }

  lemma NoTail(x: Exponent)
    requires x.NoExponent?
    ensures ExponentText(x) == ""
  {
  }

  lemma RestStarts(point: bool, fraction: string, tail: string)
    requires tail == "" || (!IsDigit(tail[0]) && tail[0] != '.')
    ensures var rest := (if point then "." + fraction else "") + tail;
            (rest == "" || !IsDigit(rest[0])) && (rest != "" ==> (rest[0] == '.' <==> point)) && (point ==> rest != "")
  {
  }

  /** A point and the digits behind it, if there is one, and what follows them. */
  lemma PointSplits(s: string) returns (point: bool, fraction: string, tail: string)
    ensures Decimals(fraction) && (point || fraction == "") && s == (if point then "." + fraction else "") + tail
    ensures point == (s != "" && s[0] == '.')
    ensures point ==> fraction == s[1..][..DigitRun(s[1..])] && tail == s[1 + DigitRun(s[1..])..]
    ensures !point ==> tail == s
  {
    point, fraction, tail := s != "" && s[0] == '.', "", s;
    if point {
      RunIsDigits(s[1..]);
      fraction, tail := s[1..][..DigitRun(s[1..])], s[1 + DigitRun(s[1..])..];
    }
  }

  /** What the test for a decimal says about the digits, the point and the exponent. */
  lemma DecimalParts(s: string, point: bool, fraction: string, tail: string)
    requires IsDecimal(s) && s != "Infinity"
    requires var rest := s[DigitRun(s)..];
             && point == (rest != "" && rest[0] == '.')
             && (point ==> fraction == rest[1..][..DigitRun(rest[1..])] && tail == rest[1 + DigitRun(rest[1..])..])
             && (!point ==> tail == rest)
    ensures (tail == "" || IsExponent(tail)) && (DigitRun(s) > 0 || fraction != "")
  {
    hide IsExponent, DigitRun;
  }

  lemma UnsignedSplits(s: string) returns (whole: string, point: bool, fraction: string, exponent: Exponent)
    requires IsDecimal(s) && s != "Infinity"
    ensures Decimals(whole) && Decimals(fraction) && (point || fraction == "") && whole + fraction != ""
    ensures IsExponentPart(exponent) && Unsigned(whole, point, fraction, exponent) == s
  {
    hide IsExponent, ExponentText, DigitRun, IsExponentPart, IsDecimal, Decimals;
    RunIsDigits(s);
    whole := s[..DigitRun(s)];
    var tail;
    point, fraction, tail := PointSplits(s[DigitRun(s)..]);
    DecimalParts(s, point, fraction, tail);
    exponent := ExponentSplitsIf(tail);
    assert s == whole + s[DigitRun(s)..];
  }

  // Signs and radixes

  lemma RadixReads(mark: char, digits: string)
    requires IsNumeral(Radix(mark, digits))
    ensures IsRadixLiteral(['0', mark] + digits)
  {
    var s := ['0', mark] + digits;
    assert "xXoObB" == ['x', 'X', 'o', 'O', 'b', 'B'];
    assert s[1] in "xXoObB";
    forall k | 2 <= k < |s| ensures IsRadixDigit(s[k], s[1]) { assert s[k] == digits[k - 2]; }
  }

  lemma RadixSplits(s: string)
    requires IsRadixLiteral(s)
    ensures IsNumeral(Radix(s[1], s[2..])) && NumeralText(Radix(s[1], s[2..])) == s
  {
    assert "xXoObB" == ['x', 'X', 'o', 'O', 'b', 'B'];
    var digits := s[2..];
    forall k | 0 <= k < |digits| ensures IsRadixDigit(digits[k], s[1]) { assert digits[k] == s[k + 2]; }
  }

  /** What stands behind a sign starts with no sign. */
  lemma DecimalStarts(s: string)
    requires IsDecimal(s)
    ensures s != "" && s[0] != '+' && s[0] != '-'
  {
    if s != "Infinity" {
      if s == "" || s[0] == '+' || s[0] == '-' { NoDigit(s); }
    }
  }

  lemma NoDigit(s: string)
    requires s == "" || s[0] == '+' || s[0] == '-'
    ensures DigitRun(s) == 0 && s[0..] == s
    ensures s != "" ==> s[0] != '.' && !IsExponent(s)
  {
  }

  lemma SignReads(sign: string, s: string)
    requires IsSign(sign) && IsDecimal(s)
    ensures IsNumeric(sign + s)
  {
    hide IsDecimal, IsRadixLiteral;
    DecimalStarts(s);
    if sign == "" {
      assert sign + s == s;
    } else {
      assert (sign + s)[1..] == s;
    }
  }

  lemma NumeralReads(n: Numeral)
    requires IsNumeral(n)
    ensures IsNumeric(NumeralText(n))
  {
    hide IsDecimal, IsRadixLiteral, Unsigned;
    match n
    case Infinite(sign) => InfinityReads(); SignReads(sign, "Infinity");
    case Decimal(sign, whole, point, fraction, exponent) =>
      UnsignedReads(whole, point, fraction, exponent);
      SignReads(sign, Unsigned(whole, point, fraction, exponent));
    case Radix(mark, digits) => RadixReads(mark, digits);
  }

  lemma InfinityReads()
    ensures IsDecimal("Infinity")
  {
  }

  lemma NumeralSplits(s: string) returns (n: Numeral)
    requires IsNumeric(s)
    ensures IsNumeral(n) && NumeralText(n) == s
  {
    hide IsDecimal, IsRadixLiteral, Unsigned;
    if IsRadixLiteral(s) {
      RadixSplits(s);
      n := Radix(s[1], s[2..]);
    } else {
      var signed := s[0] == '+' || s[0] == '-';
      var sign, text := if signed then [s[0]] else "", if signed then s[1..] else s;
      assert sign + text == s;
      if text == "Infinity" {
        n := Infinite(sign);
      } else {
        var whole, point, fraction, exponent := UnsignedSplits(text);
        n := Decimal(sign, whole, point, fraction, exponent);
      }
    }
  }

  lemma KeywordsAreNoNumbers()
    ensures !IsNumeric("true") && !IsNumeric("false") && !IsNumeric("nil")
  {
    Wordy("true");
    Wordy("false");
    Wordy("nil");
  }

  lemma Wordy(s: string)
    requires s != "" && 'f' <= s[0] <= 'z'
    ensures !IsNumeric(s)
  {
    assert DigitRun(s) == 0 && s[0..] == s;
  }

  /** A token is read as a number exactly if it is the text of a number literal, and the number keeps that text. */
  lemma NumbersExactly(token: string)
    ensures TokenValue(token) == Ok(Num(token)) <==> exists n :: IsNumeral(n) && NumeralText(n) == token
    ensures forall text :: TokenValue(token) == Ok(Num(text)) ==> text == token
  {
    hide IsNumeric, NumeralText, CommandOf;
    KeywordsAreNoNumbers();
    if IsNumeric(token) {
      var n := NumeralSplits(token);
    }
    if n :| IsNumeral(n) && NumeralText(n) == token {
      NumeralReads(n);
    }
  }
}

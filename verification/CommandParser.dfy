/**
 * The parser of Lua-style call strings, quote-aware and mutually recursive. Where the source would never return, the
 * outcome is an error of its own.
 */
module CommandParser {
  import opened Results

  // The scanners are functions of the text that remains; the methods below them are the index loops and are proved
  // to compute them. Two inputs make the original run forever; they are outcomes here: a call text that is a lone
  // `(` parses itself again, and an argument that starts with an unmatched closer is scanned again and again.

  datatype Stuck = StackOverflow | EndlessLoop

  datatype Value =
    | Str(s: string)
    | Bool(b: bool)
    | Null
    | Num(text: string)
    | Eval(call: Command)

  datatype Step = Step(segments: seq<string>, args: seq<Value>, isMethod: bool)

  /** An empty chain stands for an absent one. */
  datatype Command = Command(path: string, args: seq<Value>, isMethod: bool, root: string, chain: seq<Step>)

  // Characters and strings of JavaScript

  /** What `trim` removes and `\s` matches. */
  predicate IsSpace(c: char) {
    var n := c as int;
    || 0x9 <= n <= 0xD || n == 0x20 || n == 0xA0 || n == 0xFEFF || n == 0x1680
    || 0x2000 <= n <= 0x200A || n == 0x2028 || n == 0x2029 || n == 0x202F || n == 0x205F || n == 0x3000
  }

  predicate IsQuote(c: char) { c == '"' || c == '\'' }

  predicate IsOpener(c: char) { c == '(' || c == '{' }

  predicate IsCloser(c: char) { c == ')' || c == '}' }

  predicate IsSeparator(c: char) { IsSpace(c) || c == ',' }

  function TrimLeft(s: string): (r: string)
    ensures |r| <= |s|
  {
    if s != "" && IsSpace(s[0]) then TrimLeft(s[1..]) else s
  }

  function TrimRight(s: string): (r: string)
    ensures |r| <= |s|
  {
    if s != "" && IsSpace(s[|s| - 1]) then TrimRight(s[..|s| - 1]) else s
  }

  function Trim(s: string): (r: string)
    ensures |r| <= |s|
  {
    TrimRight(TrimLeft(s))
  }

  function Drop(s: string, k: nat): string { if k <= |s| then s[k..] else "" }

  function Bound(k: nat, n: nat): nat { if k < n then k else n }

  /** `s.substring(a, b)`: clamped to the string, and swapped when out of order. */
  function Substring(s: string, a: nat, b: nat): (r: string)
    ensures |r| <= |s|
  {
    var x, y := Bound(a, |s|), Bound(b, |s|);
    if x <= y then s[x..y] else s[y..x]
  }

  /** Index of the first `(`, or the length. */
  function ParenIndex(s: string): (n: nat)
    ensures n <= |s| && (n < |s| ==> s[n] == '(') && forall k :: 0 <= k < n ==> s[k] != '('
  {
    if s == "" || s[0] == '(' then 0 else 1 + ParenIndex(s[1..])
  }

  predicate HasParen(s: string) { ParenIndex(s) < |s| }

  predicate HasColon(s: string) { exists k :: 0 <= k < |s| && s[k] == ':' }

  predicate IsLetter(c: char) { 'a' <= c <= 'z' || 'A' <= c <= 'Z' || c == '_' }

  predicate IsDigit(c: char) { '0' <= c <= '9' }

  predicate IsWord(c: char) { IsLetter(c) || IsDigit(c) }

  function WordRun(s: string): (n: nat)
    ensures n <= |s|
  {
    if s != "" && IsWord(s[0]) then 1 + WordRun(s[1..]) else 0
  }

  /** The leading identifier of a path, `core` when there is none. */
  function Root(path: string): string {
    if path != "" && IsLetter(path[0]) then path[..WordRun(path)] else "core"
  }

  /** `s.split(/[.:]/)` */
  function Segments(s: string): (r: seq<string>)
    ensures r != []
  {
    if s == "" then [""] else
    var rest := Segments(s[1..]);
    if s[0] == '.' || s[0] == ':' then [""] + rest else [[s[0]] + rest[0]] + rest[1..]
  }

  // Number literals, section 7.1.4.1 of ECMA-262

  function DigitRun(s: string): (n: nat)
    ensures n <= |s|
  {
    if s != "" && IsDigit(s[0]) then 1 + DigitRun(s[1..]) else 0
  }

  predicate IsExponent(s: string) {
    |s| >= 2 && (s[0] == 'e' || s[0] == 'E') &&
    var digits := if s[1] == '+' || s[1] == '-' then s[2..] else s[1..];
    digits != "" && DigitRun(digits) == |digits|
  }

  predicate IsDecimal(s: string) {
    s == "Infinity" ||
    var whole := DigitRun(s);
    var rest := s[whole..];
    if rest != "" && rest[0] == '.' then
      var fraction := DigitRun(rest[1..]);
      whole + fraction > 0 && (rest[1 + fraction..] == "" || IsExponent(rest[1 + fraction..]))
    else whole > 0 && (rest == "" || IsExponent(rest))
  }

  predicate IsRadixDigit(c: char, base: char) {
    if base == 'x' || base == 'X' then IsDigit(c) || 'a' <= c <= 'f' || 'A' <= c <= 'F'
    else if base == 'o' || base == 'O' then '0' <= c <= '7'
    else '0' <= c <= '1'
  }

  predicate IsRadixLiteral(s: string) {
    |s| > 2 && s[0] == '0' && s[1] in "xXoObB" && forall k :: 2 <= k < |s| ==> IsRadixDigit(s[k], s[1])
  }

  /** `token !== "" && !isNaN(Number(token))` for a trimmed token. */
  predicate IsNumeric(s: string) {
    s != "" && (IsRadixLiteral(s) || IsDecimal(if s[0] == '+' || s[0] == '-' then s[1..] else s))
  }

  // Scanning

  /** Length of a literal after its opening quote, closing quote included; a final backslash overshoots by one. */
  function SkipBody(s: string, quote: char): (n: nat)
    ensures n <= |s| + 1
  {
    if s == "" then 0
    else if s[0] == '\\' then (if |s| == 1 then 2 else 2 + SkipBody(s[2..], quote))
    else if s[0] == quote then 1
    else 1 + SkipBody(s[1..], quote)
  }

  function SkipLength(s: string): (n: nat)
    requires s != ""
    ensures 0 < n <= |s| + 1
  {
    1 + SkipBody(s[1..], s[0])
  }

  /** Length up to and including the bracket that brings `depth` to 0, or the whole length. */
  function CloseLength(s: string, depth: int): (n: nat)
    ensures n <= |s| && (s != "" ==> n > 0)
    decreases |s|
  {
    if s == "" then 0
    else if IsQuote(s[0]) then
      var k := SkipLength(s);
      if k >= |s| then |s| else k + CloseLength(s[k..], depth)
    else if IsOpener(s[0]) then 1 + CloseLength(s[1..], depth + 1)
    else if IsCloser(s[0]) then (if depth == 1 then 1 else 1 + CloseLength(s[1..], depth - 1))
    else 1 + CloseLength(s[1..], depth)
  }

  /** Length of a bare token: up to a comma or a closer at depth 0. */
  function BareLength(s: string, depth: nat): (n: nat)
    ensures n <= |s| + 1
    decreases |s|
  {
    if s == "" then 0
    else if IsQuote(s[0]) then
      var k := SkipLength(s);
      if k >= |s| then k else k + BareLength(s[k..], depth)
    else if IsOpener(s[0]) then 1 + BareLength(s[1..], depth + 1)
    else if IsCloser(s[0]) then (if depth == 0 then 0 else 1 + BareLength(s[1..], depth - 1))
    else if s[0] == ',' && depth == 0 then 0
    else 1 + BareLength(s[1..], depth)
  }

  function Unescape(s: string): string {
    if s == "" then ""
    else if s[0] == '\\' && |s| > 1 then [s[1]] + Unescape(s[2..])
    else [s[0]] + Unescape(s[1..])
  }

  // Parsing

  type Parse<+T> = Result<T, Stuck>

  function Cons<T>(x: T, r: Parse<seq<T>>): Parse<seq<T>> {
    match r case Ok(xs) => Ok([x] + xs) case Err(e) => Err(e)
  }

  /** The value of a trimmed bare token. */
  function TokenValue(token: string): Parse<Value>
    decreases |token|, 1
  {
    if token == "true" then Ok(Bool(true))
    else if token == "false" then Ok(Bool(false))
    else if token == "nil" then Ok(Null)
    else if IsNumeric(token) then Ok(Num(token))
    else if HasParen(token) then
      match CommandOf(token) case Ok(c) => Ok(Eval(c)) case Err(e) => Err(e)
    else Ok(Str(token))
  }

  /** The first argument of a text that starts with no separator, and its length. */
  function FirstArg(s: string): (r: Parse<(Value, nat)>)
    requires s != ""
    ensures r.Ok? ==> r.value.1 > 0
    decreases |s|, 2
  {
    if IsQuote(s[0]) then
      var k := SkipLength(s);
      Ok((Str(Unescape(Substring(s, 1, k - 1))), k))
    else if s[0] == '{' then Ok((Str(s[..CloseLength(s, 0)]), CloseLength(s, 0)))
    else
      var k := BareLength(s, 0);
      if k == 0 then Err(EndlessLoop) else
      match TokenValue(Trim(Substring(s, 0, k)))
      case Err(e) => Err(e)
      case Ok(v) => Ok((v, k))
  }

  /** The arguments in the rest of a trimmed argument text. */
  function ArgsOf(s: string): Parse<seq<Value>>
    decreases |s|, 3
  {
    if s == "" then Ok([])
    else if IsSeparator(s[0]) then ArgsOf(s[1..])
    else
      match FirstArg(s)
      case Err(e) => Err(e)
      case Ok((v, k)) => Cons(v, ArgsOf(Drop(s, k)))
  }

  predicate IsDelimiter(c: char) { c == '.' || c == ':' }

  /** The first step of a chain text and its length. */
  function FirstStep(s: string): (r: Parse<(Step, nat)>)
    requires s != ""
    ensures r.Ok? ==> 0 < r.value.1 <= |s|
    decreases |s|, 0
  {
    var n := ParenIndex(s[1..]);
    var name, rest := s[1..][..n], s[1..][n..];
    var isMethod := HasColon([s[0]] + name);
    if rest == "" then Ok((Step(Segments(name), [], isMethod), |s|)) else
    var k := CloseLength(rest, 0);
    match ArgsOf(Trim(Substring(rest, 1, k - 1)))
    case Err(e) => Err(e)
    case Ok(args) => Ok((Step(Segments(name), args, isMethod), 1 + n + k))
  }

  /** The steps in the rest of a chain text. */
  function ChainOf(s: string): Parse<seq<Step>>
    decreases |s|, 1
  {
    if s == "" || !IsDelimiter(s[0]) then Ok([]) else
    match FirstStep(s)
    case Err(e) => Err(e)
    case Ok((step, k)) => Cons(step, ChainOf(s[k..]))
  }

  /** The command a trimmed text stands for. */
  function CommandOf(t: string): Parse<Command>
    decreases |t|, 0
  {
    var p := ParenIndex(t);
    var path := t[..p];
    if p == |t| then Ok(Command(path, [], HasColon(path), Root(path), []))
    else if t == "(" then Err(StackOverflow)
    else
      var rest := t[p..];
      var k := CloseLength(rest, 0);
      ArgsShorter(rest, k);
      match ArgsOf(Trim(Substring(rest, 1, k - 1)))
      case Err(e) => Err(e)
      case Ok(args) =>
        match ChainOf(Trim(rest[k..]))
        case Err(e) => Err(e)
        case Ok(chain) => Ok(Command(path, args, HasColon(path), Root(path), chain))
  }

  /** The argument text is shorter than the call unless the call is a lone parenthesis. */
  lemma ArgsShorter(rest: string, k: nat)
    requires rest != "" && 0 < k <= |rest|
    ensures |Substring(rest, 1, k - 1)| < |rest| || |rest| == 1
  {
  }

  function ParseArgsText(raw: string): Parse<seq<Value>> { ArgsOf(Trim(raw)) }

  function ParseCommandText(input: string): Parse<Command> { CommandOf(Trim(input)) }

  // The index loops

  lemma DropDrop(s: string, j: nat, k: nat)
    ensures Drop(Drop(s, j), k) == Drop(s, j + k)
    ensures j < |s| ==> Drop(s, j) == s[j..] && |Drop(s, j)| == |s| - j && Drop(s, j)[0] == s[j]
  {
  }

  /** Where the scan of a literal that stands at `i` ends. */
  ghost function SkipFrom(str: string, i: nat, quote: char): nat { i + SkipBody(Drop(str, i), quote) }

  lemma SkipFromStep(str: string, i: nat, quote: char)
    requires i < |str|
    ensures SkipFrom(str, i, quote) ==
            if str[i] == '\\' then SkipFrom(str, i + 2, quote)
            else if str[i] == quote then i + 1
            else SkipFrom(str, i + 1, quote)
  {
    DropDrop(str, i, 1);
    DropDrop(str, i, 2);
    var s := Drop(str, i);
    assert s[1..] == Drop(str, i + 1);
    if |s| > 1 { assert s[2..] == Drop(str, i + 2); }
  }

  lemma SkipFromStart(str: string, open: nat)
    requires open < |str|
    ensures open + SkipLength(str[open..]) == SkipFrom(str, open + 1, str[open])
  {
    assert str[open..][1..] == Drop(str, open + 1);
  }

  lemma SkipFromEnd(str: string, i: nat, quote: char)
    requires i >= |str|
    ensures SkipFrom(str, i, quote) == i
  {
  }

  method SkipString(str: string, open: nat) returns (i: nat)
    requires open < |str|
    ensures i == open + SkipLength(str[open..])
  {
    hide SkipFrom, SkipBody;
    var quote := str[open];
    i := open + 1;
    SkipFromStart(str, open);
    while i < |str|
      invariant open < i <= |str| + 1
      invariant open + SkipLength(str[open..]) == SkipFrom(str, i, quote)
    {
      SkipFromStep(str, i, quote);
      if str[i] == '\\' { i := i + 2; }
      else if str[i] == quote { return i + 1; }
      else { i := i + 1; }
    }
    SkipFromEnd(str, i, quote);
  }

  /** Where a bracket scan that stands at `i` with `depth` brackets open ends. */
  ghost function CloseFrom(str: string, i: nat, depth: int): nat {
    if i < |str| then i + CloseLength(str[i..], depth) else |str|
  }

  lemma CloseFromStep(str: string, i: nat, depth: int)
    requires i < |str|
    ensures CloseFrom(str, i, depth) ==
            if IsQuote(str[i]) then CloseFrom(str, i + SkipLength(str[i..]), depth)
            else if IsOpener(str[i]) then CloseFrom(str, i + 1, depth + 1)
            else if IsCloser(str[i]) then (if depth == 1 then i + 1 else CloseFrom(str, i + 1, depth - 1))
            else CloseFrom(str, i + 1, depth)
  {
    hide SkipLength, IsQuote, IsOpener, IsCloser;
    var s := str[i..];
    var k := SkipLength(s);
    assert s[1..] == str[i + 1..] && (|s| == 1 ==> s[1..] == "");
    if k < |s| { assert s[k..] == str[i + k..]; }
  }

  lemma CloseFromEnds(str: string, i: nat, depth: int)
    ensures CloseFrom(str, i, depth) == if i < |str| then i + CloseLength(str[i..], depth) else |str|
  {
  }

  method FindClose(str: string, open: nat) returns (end: nat)
    requires open < |str|
    ensures end == open + CloseLength(str[open..], 0)
  {
    hide CloseFrom, CloseLength, SkipLength, IsQuote, IsOpener, IsCloser;
    var depth := 0;
    var i := open;
    CloseFromEnds(str, open, 0);
    while i < |str|
      invariant open <= i && CloseFrom(str, i, depth) == CloseFrom(str, open, 0)
      decreases |str| - i
    {
      CloseFromStep(str, i, depth);
      var ch := str[i];
      if IsQuote(ch) {
        i := SkipString(str, i);
        continue;
      }
      if IsOpener(ch) {
        depth := depth + 1;
      } else if IsCloser(ch) {
        depth := depth - 1;
        if depth == 0 { return i + 1; }
      }
      i := i + 1;
    }
    end := |str|;
    CloseFromEnds(str, i, depth);
  }

  /** Where a bare token that is read up to `j` with `depth` brackets open ends. */
  ghost function BareFrom(str: string, j: nat, depth: nat): nat {
    if j < |str| then j + BareLength(str[j..], depth) else j
  }

  lemma BareFromStep(str: string, j: nat, depth: nat)
    requires j < |str|
    ensures BareFrom(str, j, depth) ==
            if IsQuote(str[j]) then BareFrom(str, j + SkipLength(str[j..]), depth)
            else if IsOpener(str[j]) then BareFrom(str, j + 1, depth + 1)
            else if IsCloser(str[j]) then (if depth == 0 then j else BareFrom(str, j + 1, depth - 1))
            else if str[j] == ',' && depth == 0 then j
            else BareFrom(str, j + 1, depth)
  {
    hide BareLength, SkipLength, IsQuote, IsOpener, IsCloser;
    var s := str[j..];
    var k := SkipLength(s);
    BareLengthStep(s, depth);
    assert s[1..] == str[j + 1..];
    if k < |s| { assert s[k..] == str[j + k..]; }
  }

  lemma BareLengthStep(s: string, depth: nat)
    requires s != ""
    ensures BareLength(s, depth) ==
            if IsQuote(s[0]) then
              SkipLength(s) + if SkipLength(s) < |s| then BareLength(s[SkipLength(s)..], depth) else 0
            else if IsOpener(s[0]) then 1 + BareLength(s[1..], depth + 1)
            else if IsCloser(s[0]) then (if depth == 0 then 0 else 1 + BareLength(s[1..], depth - 1))
            else if s[0] == ',' && depth == 0 then 0
            else 1 + BareLength(s[1..], depth)
    ensures |s| == 1 ==> forall d: nat :: BareLength(s[1..], d) == 0
  {
    hide SkipLength, IsQuote, IsOpener, IsCloser;
  }

  lemma BareFromEnds(str: string, j: nat, depth: nat)
    ensures BareFrom(str, j, depth) == if j < |str| then j + BareLength(str[j..], depth) else j
  {
  }

  method FindBareEnd(str: string, start: nat) returns (j: nat)
    requires start < |str|
    ensures j == start + BareLength(str[start..], 0)
  {
    hide BareFrom, BareLength, SkipLength, IsQuote, IsOpener, IsCloser;
    j := start;
    var depth := 0;
    BareFromEnds(str, start, 0);
    while j < |str|
      invariant start <= j && depth >= 0 && BareFrom(str, j, depth) == BareFrom(str, start, 0)
      decreases |str| - j
    {
      BareFromStep(str, j, depth);
      var c := str[j];
      if IsQuote(c) {
        j := SkipString(str, j);
        continue;
      }
      if IsOpener(c) {
        depth := depth + 1;
      } else if IsCloser(c) {
        if depth == 0 { return; }
        depth := depth - 1;
      } else if c == ',' && depth == 0 {
        return;
      }
      j := j + 1;
    }
    BareFromEnds(str, j, depth);
  }

  method UnescapeBody(body: string) returns (out: string)
    ensures out == Unescape(body)
  {
    out := "";
    var j := 0;
    assert Drop(body, 0) == body;
    while j < |body|
      invariant Unescape(body) == out + Unescape(Drop(body, j))
    {
      DropDrop(body, j, 1);
      DropDrop(body, j, 2);
      UnescapeStep(out, Drop(body, j));
      if body[j] == '\\' && j + 1 < |body| {
        assert Drop(body, j)[1] == body[j + 1];
        out := out + [body[j + 1]];
        j := j + 2;
      } else {
        out := out + [body[j]];
        j := j + 1;
      }
    }
    assert out + "" == out;
  }

  lemma Append(out: string, c: char, tail: string)
    ensures out + ([c] + tail) == (out + [c]) + tail
  {
  }

  lemma UnescapeStep(out: string, s: string)
    requires s != ""
    ensures out + Unescape(s) ==
            if s[0] == '\\' && |s| > 1 then (out + [s[1]]) + Unescape(Drop(s, 2))
            else (out + [s[0]]) + Unescape(Drop(s, 1))
  {
    if s[0] == '\\' && |s| > 1 {
      Append(out, s[1], Unescape(s[2..]));
    } else {
      Append(out, s[0], Unescape(s[1..]));
    }
  }

  method ParseToken(token: string) returns (r: Parse<Value>)
    ensures r == TokenValue(token)
    decreases |token|, 1
  {
    if token == "true" { return Ok(Bool(true)); }
    if token == "false" { return Ok(Bool(false)); }
    if token == "nil" { return Ok(Null); }
    if IsNumeric(token) { return Ok(Num(token)); }
    if HasParen(token) {
      var c := ParseTrimmedCommand(token);
      return match c case Ok(call) => Ok(Eval(call)) case Err(e) => Err(e);
    }
    r := Ok(Str(token));
  }

  /** What `args` collected so far and `r` still to come make together. */
  function Followed<T>(args: seq<T>, r: Parse<seq<T>>): Parse<seq<T>> {
    match r case Ok(more) => Ok(args + more) case Err(e) => Err(e)
  }

  lemma FollowedStep<T>(args: seq<T>, x: T, r: Parse<seq<T>>)
    ensures Followed(args, Cons(x, r)) == Followed(args + [x], r)
  {
    if r.Ok? { assert args + ([x] + r.value) == (args + [x]) + r.value; }
  }

  lemma FollowedStart<T>(r: Parse<seq<T>>)
    ensures Followed([], r) == r
  {
    if r.Ok? { assert [] + r.value == r.value; }
  }

  /** A length read off a suffix as an end position in the whole text. */
  function ReadFrom<T>(r: Parse<(T, nat)>, start: nat): Parse<(T, nat)> {
    match r case Ok((x, length)) => Ok((x, start + length)) case Err(e) => Err(e)
  }

  /** The argument that starts at `i`, and where the scan goes on. */
  method ParseFirstArg(trimmed: string, i: nat) returns (r: Parse<(Value, nat)>)
    requires i < |trimmed|
    ensures r.Ok? ==> r.value.1 > i
    ensures ReadFrom(FirstArg(trimmed[i..]), i) == r
    decreases |trimmed| - i, 2
  {
    hide TokenValue, BareLength, CloseLength, SkipLength;
    var rest := trimmed[i..];
    var ch := trimmed[i];
    if IsQuote(ch) {
      var end := SkipString(trimmed, i);
      var body := UnescapeBody(Substring(rest, 1, end - i - 1));
      return Ok((Str(body), end));
    }
    if ch == '{' {
      var end := FindClose(trimmed, i);
      assert trimmed[i..end] == rest[..end - i];
      return Ok((Str(trimmed[i..end]), end));
    }
    var end := FindBareEnd(trimmed, i);
    if end == i { return Err(EndlessLoop); }
    var value := ParseToken(Trim(Substring(rest, 0, end - i)));
    r := match value case Ok(v) => Ok((v, end)) case Err(e) => Err(e);
  }

  /** What the loop of `ParseArgs` has and will have when it stands at `i`. */
  ghost function ArgsFrom(args: seq<Value>, trimmed: string, i: nat): Parse<seq<Value>> {
    Followed(args, ArgsOf(Drop(trimmed, i)))
  }

  lemma ArgsFromStep(args: seq<Value>, trimmed: string, i: nat)
    requires i < |trimmed|
    ensures ArgsFrom(args, trimmed, i) ==
            if IsSeparator(trimmed[i]) then ArgsFrom(args, trimmed, i + 1) else
            match ReadFrom(FirstArg(trimmed[i..]), i)
            case Err(e) => Err(e)
            case Ok((v, end)) => ArgsFrom(args + [v], trimmed, end)
  {
    hide FirstArg, IsSeparator;
    DropDrop(trimmed, i, 1);
    if !IsSeparator(trimmed[i]) && FirstArg(trimmed[i..]).Ok? {
      var (v, k) := FirstArg(trimmed[i..]).value;
      DropDrop(trimmed, i, k);
      FollowedStep(args, v, ArgsOf(Drop(trimmed, i + k)));
    }
  }

  lemma ArgsFromEnds(args: seq<Value>, trimmed: string, i: nat)
    ensures ArgsFrom([], trimmed, 0) == ArgsOf(trimmed)
    ensures i >= |trimmed| ==> ArgsFrom(args, trimmed, i) == Ok(args)
  {
    hide FirstArg, IsSeparator;
    assert Drop(trimmed, 0) == trimmed && args + [] == args;
    FollowedStart(ArgsOf(trimmed));
  }

  method ParseArgs(raw: string) returns (r: Parse<seq<Value>>)
    ensures r == ParseArgsText(raw)
    decreases |raw|, 3
  {
    hide ArgsFrom, ArgsOf, FirstArg, IsSeparator, Trim;
    var trimmed := Trim(raw);
    var args: seq<Value> := [];
    var i := 0;
    ArgsFromEnds(args, trimmed, i);
    while i < |trimmed|
      invariant ArgsFrom(args, trimmed, i) == ArgsOf(trimmed)
      decreases |trimmed| - i
    {
      ArgsFromStep(args, trimmed, i);
      if IsSeparator(trimmed[i]) {
        i := i + 1;
        continue;
      }
      var arg := ParseFirstArg(trimmed, i);
      if arg.Err? { return Err(arg.error); }
      var (value, end) := arg.value;
      args := args + [value];
      i := end;
    }
    ArgsFromEnds(args, trimmed, i);
    r := Ok(args);
  }

  lemma FirstStepAt(str: string, pos: nat)
    requires pos < |str|
    ensures var n := ParenIndex(str[pos + 1..]);
            var at := pos + 1 + n;
            var name := str[pos + 1..at];
            var isMethod := HasColon([str[pos]] + name);
            ReadFrom(FirstStep(str[pos..]), pos) ==
              if at == |str| then Ok((Step(Segments(name), [], isMethod), at)) else
              var k := CloseLength(str[at..], 0);
              match ArgsOf(Trim(Substring(str[at..], 1, k - 1)))
              case Err(e) => Err(e)
              case Ok(args) => Ok((Step(Segments(name), args, isMethod), at + k))
  {
    hide CloseLength, Segments, HasColon, ArgsOf, Trim, Substring;
    var s := str[pos..];
    assert s[1..] == str[pos + 1..];
    var n := ParenIndex(s[1..]);
    assert s[1..][..n] == str[pos + 1..pos + 1 + n] && s[1..][n..] == str[pos + 1 + n..];
  }

  /** The step that starts at `pos`, and where the chain goes on. */
  method ParseFirstStep(str: string, pos: nat) returns (r: Parse<(Step, nat)>)
    requires pos < |str|
    ensures r.Ok? ==> pos < r.value.1 <= |str|
    ensures ReadFrom(FirstStep(str[pos..]), pos) == r
    decreases |str| - pos, 0
  {
    hide FirstStep, ReadFrom, CloseLength, Segments, HasColon, ArgsOf, Trim, ParenIndex;
    FirstStepAt(str, pos);
    var at := pos + 1 + ParenIndex(str[pos + 1..]);
    var name := str[pos + 1..at];
    var isMethod := HasColon([str[pos]] + name);
    if at == |str| { return Ok((Step(Segments(name), [], isMethod), at)); }
    var end := FindClose(str, at);
    var args := ParseArgs(Substring(str[at..], 1, end - at - 1));
    r := match args case Ok(vs) => Ok((Step(Segments(name), vs, isMethod), end)) case Err(e) => Err(e);
  }

  method ParseChain(str: string) returns (r: Parse<seq<Step>>)
    ensures r == ChainOf(str)
    decreases |str|, 1
  {
    hide FirstStep, IsDelimiter;
    var steps: seq<Step> := [];
    var pos := 0;
    assert str[0..] == str;
    FollowedStart(ChainOf(str));
    while pos < |str|
      invariant pos <= |str| && Followed(steps, ChainOf(str[pos..])) == ChainOf(str)
      decreases |str| - pos
    {
      if !IsDelimiter(str[pos]) { break; }
      var step := ParseFirstStep(str, pos);
      if step.Err? { return Err(step.error); }
      var (s, end) := step.value;
      assert str[pos..][end - pos..] == str[end..];
      FollowedStep(steps, s, ChainOf(str[end..]));
      steps := steps + [s];
      pos := end;
    }
    r := Ok(steps);
    assert steps + [] == steps;
  }

  method ParseTrimmedCommand(trimmed: string) returns (r: Parse<Command>)
    ensures r == CommandOf(trimmed)
    decreases |trimmed|, 0
  {
    hide CloseLength, Root, HasColon, ArgsOf, ChainOf;
    var p := ParenIndex(trimmed);
    var path := trimmed[..p];
    if p == |trimmed| { return Ok(Command(path, [], HasColon(path), Root(path), [])); }
    if trimmed == "(" { return Err(StackOverflow); }
    var rest := trimmed[p..];
    var end := FindClose(trimmed, p);
    ArgsShorter(rest, end - p);
    var args := ParseArgs(Substring(rest, 1, end - p - 1));
    if args.Err? { return Err(args.error); }
    assert rest[end - p..] == trimmed[end..];
    var chain := ParseChain(Trim(trimmed[end..]));
    if chain.Err? { return Err(chain.error); }
    r := Ok(Command(path, args.value, HasColon(path), Root(path), chain.value));
  }

  method ParseCommand(input: string) returns (r: Parse<Command>)
    ensures r == ParseCommandText(input)
  {
    r := ParseTrimmedCommand(Trim(input));
  }
}

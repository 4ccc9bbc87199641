/**
 * Call trees, their text, and what the parser makes of that text. A tree has paths of several segments, arguments of
 * every kind and a chain; a style says which blanks are printed where, none of which the parser may notice.
 */
module CommandRoundTrip {
  import opened Results
  import opened CommandParser
  import opened Brackets
  import opened CommandNumbers

  // Every well-formed tree is parsed back, whatever brackets, commas, quotes and backslashes its strings hold.

  datatype Arg =
    | StringLit(s: string, quote: char)
    | BoolLit(b: bool)
    | NilLit
    | NumberLit(number: Numeral)
    | WordLit(text: string)
    | TableLit(inner: string)
    | CallLit(call: Call)

  /** One more segment of a path. */
  datatype Hop = Hop(delimiter: char, name: string)

  /** A call with its chain of called steps; `tail` is a last step that is not called. */
  datatype Call = Call(head: string, hops: seq<Hop>, args: seq<Arg>, chain: seq<Link>, tail: seq<Hop>)

  /** A called chain step. */
  datatype Link = Link(first: Hop, more: seq<Hop>, args: seq<Arg>)

  /** Layout: what stands between arguments, inside the parentheses, and between a call and its chain. */
  datatype Style = Style(gap: string, pad: string, space: string)

  // Paths

  function HopsText(hops: seq<Hop>): string {
    if hops == [] then "" else [hops[0].delimiter] + (hops[0].name + HopsText(hops[1..]))
  }

  function Names(hops: seq<Hop>): (names: seq<string>)
    ensures |names| == |hops| && forall i :: 0 <= i < |hops| ==> names[i] == hops[i].name
  {
    seq(|hops|, i requires 0 <= i < |hops| => hops[i].name)
  }

  /** Some segment is reached with a colon. */
  predicate ByColon(hops: seq<Hop>) { exists i :: 0 <= i < |hops| && hops[i].delimiter == ':' }

  predicate StartsName(c: char) { 'a' <= c <= 'z' || 'A' <= c <= 'Z' || c == '_' }

  predicate IsName(n: string) { forall k :: 0 <= k < |n| ==> StartsName(n[k]) || '0' <= n[k] <= '9' }

  predicate IsHop(h: Hop) { (h.delimiter == '.' || h.delimiter == ':') && IsName(h.name) }

  predicate AreHops(hops: seq<Hop>) { forall i :: 0 <= i < |hops| ==> IsHop(hops[i]) }

  // The command a tree denotes

  function DenoteArg(a: Arg): Value {
    match a
    case StringLit(s, _) => Str(s)
    case BoolLit(b) => Bool(b)
    case NilLit => Null
    case NumberLit(n) => Num(NumeralText(n))
    case WordLit(text) => Str(text)
    case TableLit(inner) => Str("{" + inner + "}")
    case CallLit(call) => Eval(Denote(call))
  }

  function DenoteArgs(args: seq<Arg>): seq<Value> {
    if args == [] then [] else [DenoteArg(args[0])] + DenoteArgs(args[1..])
  }

  /** The root of a path: its first segment if that starts with a letter. */
  function RootName(head: string): string { if head != "" && StartsName(head[0]) then head else "core" }

  function Denote(c: Call): Command {
    Command(c.head + HopsText(c.hops), DenoteArgs(c.args), ByColon(c.hops), RootName(c.head),
            DenoteChain(c.chain) + DenoteTail(c.tail))
  }

  function DenoteLink(l: Link): Step {
    Step([l.first.name] + Names(l.more), DenoteArgs(l.args), ByColon([l.first] + l.more))
  }

  function DenoteChain(chain: seq<Link>): seq<Step> {
    if chain == [] then [] else [DenoteLink(chain[0])] + DenoteChain(chain[1..])
  }

  function DenoteTail(tail: seq<Hop>): seq<Step> { if tail == [] then [] else [Step(Names(tail), [], ByColon(tail))] }

  // Well-formed trees

  /** A bare word: it is one token, and no keyword, number or call. */
  ghost predicate IsBareWord(text: string) {
    && BalancedToken(text) && Solid(text) && !IsQuote(text[0]) && text[0] != '{' && '(' !in text
    && text != "true" && text != "false" && text != "nil"
    && forall n :: IsNumeral(n) ==> NumeralText(n) != text
  }

  ghost predicate WellFormedArg(a: Arg) {
    match a
    case StringLit(_, quote) => IsQuote(quote)
    case NumberLit(n) => IsNumeral(n)
    case WordLit(text) => IsBareWord(text)
    case TableLit(inner) => Balanced(inner)
    case CallLit(call) => WellFormed(call)
    case _ => true
  }

  ghost predicate WellFormedArgs(args: seq<Arg>) { forall a :: a in args ==> WellFormedArg(a) }

  ghost predicate WellFormed(c: Call) {
    && IsName(c.head) && AreHops(c.hops) && AreHops(c.tail) && WellFormedArgs(c.args)
    && forall l :: l in c.chain ==> WellFormedLink(l)
  }

  ghost predicate WellFormedLink(l: Link) { IsHop(l.first) && AreHops(l.more) && WellFormedArgs(l.args) }

  /** What may stand between two arguments: blanks, a comma, and then any separators. */
  ghost predicate IsGap(gap: string) {
    exists k :: 0 <= k < |gap| && Blank(gap[..k]) && gap[k] == ',' && forall i :: k < i < |gap| ==> IsSeparator(gap[i])
  }

  ghost predicate IsStyle(st: Style) { IsGap(st.gap) && Blank(st.pad) && Blank(st.space) }

  // The text of a tree

  function Escape(s: string, quote: char): string {
    if s == "" then ""
    else if s[0] == quote || s[0] == '\\' then ['\\', s[0]] + Escape(s[1..], quote)
    else [s[0]] + Escape(s[1..], quote)
  }

  function PrintArg(a: Arg, st: Style): string
    decreases a, 0
  {
    match a
    case StringLit(s, quote) => [quote] + Escape(s, quote) + [quote]
    case BoolLit(b) => if b then "true" else "false"
    case NilLit => "nil"
    case NumberLit(n) => NumeralText(n)
    case WordLit(text) => text
    case TableLit(inner) => "{" + inner + "}"
    case CallLit(call) => Print(call, st)
  }

  function PrintArgs(args: seq<Arg>, st: Style): string
    decreases args, 1
  {
    if args == [] then ""
    else if |args| == 1 then PrintArg(args[0], st)
    else PrintArg(args[0], st) + (st.gap + PrintArgs(args[1..], st))
  }

  /** The arguments in their parentheses. */
  function PrintParens(args: seq<Arg>, st: Style): string
    decreases args, 2
  {
    "(" + (st.pad + PrintArgs(args, st) + st.pad) + ")"
  }

  function PrintSteps(c: Call, st: Style): string
    decreases c, 1
  {
    PrintChain(c.chain, st) + HopsText(c.tail)
  }

  function Print(c: Call, st: Style): string
    decreases c, 2
  {
    c.head + HopsText(c.hops) + (PrintParens(c.args, st) + Spaced(st.space, PrintSteps(c, st)))
  }

  function Spaced(space: string, text: string): string { if text == "" then "" else space + text }

  function PrintLink(l: Link, st: Style): string
    decreases l, 3
  {
    HopsText([l.first] + l.more) + PrintParens(l.args, st)
  }

  function PrintChain(chain: seq<Link>, st: Style): string
    decreases chain, 4
  {
    if chain == [] then "" else PrintLink(chain[0], st) + PrintChain(chain[1..], st)
  }

  // String literals

  lemma {:induction false} EscapeRoundTrip(s: string, quote: char)
    ensures Unescape(Escape(s, quote)) == s
  {
    if s != "" {
      EscapeRoundTrip(s[1..], quote);
      var rest := Escape(s[1..], quote);
      if s[0] == quote || s[0] == '\\' {
        assert (['\\', s[0]] + rest)[2..] == rest;
      } else {
        assert ([s[0]] + rest)[1..] == rest;
      }
    }
  }

  lemma EscapeFirst(s: string, quote: char, tail: string)
    requires s != ""
    ensures var head := if s[0] == quote || s[0] == '\\' then ['\\', s[0]] else [s[0]];
            && Escape(s, quote) == head + Escape(s[1..], quote)
            && Escape(s, quote) + tail == head + (Escape(s[1..], quote) + tail)
  {
  }

  /** The scan of a literal passes over an escaped character, and over one that need not be escaped. */
  lemma ScanPasses(c: char, rest: string, quote: char)
    ensures SkipBody(['\\', c] + rest, quote) == 2 + SkipBody(rest, quote)
    ensures Closes(['\\', c] + rest, quote) <==> Closes(rest, quote)
    ensures c != quote && c != '\\' ==> SkipBody([c] + rest, quote) == 1 + SkipBody(rest, quote)
    ensures c != quote && c != '\\' ==> (Closes([c] + rest, quote) <==> Closes(rest, quote))
  {
    assert (['\\', c] + rest)[2..] == rest && ([c] + rest)[1..] == rest;
  }

  /** The closing quote is the first one the scan takes for a quote. */
  lemma {:induction false} EscapedCloses(s: string, quote: char)
    requires quote != '\\'
    ensures Closes(Escape(s, quote) + [quote], quote)
    ensures SkipBody(Escape(s, quote) + [quote], quote) == |Escape(s, quote)| + 1
  {
    if s == "" {
      assert Escape(s, quote) + [quote] == [quote];
    } else {
      hide Closes, SkipBody, Escape;
      EscapedCloses(s[1..], quote);
      EscapeFirst(s, quote, [quote]);
      ScanPasses(s[0], Escape(s[1..], quote) + [quote], quote);
    }
  }

  lemma LiteralScan(s: string, quote: char, t: string)
    requires IsQuote(quote)
    ensures var lit := [quote] + Escape(s, quote) + [quote];
            BalancedToken(lit) && SkipLength(lit + t) == |lit| && Substring(lit + t, 1, |lit| - 1) == Escape(s, quote)
  {
    hide Closes, SkipBody, Escape;
    var lit := [quote] + Escape(s, quote) + [quote];
    EscapedCloses(s, quote);
    assert lit[1..] == Escape(s, quote) + [quote];
    SkipThenMore(lit, t);
    assert SkipLength(lit) == |lit| && lit[SkipLength(lit)..] == "";
    assert Depth(lit, 0, false) == Depth("", 0, false);
    assert (lit + t)[1..|lit| - 1] == Escape(s, quote);
  }

  // Trimming

  /** Neither end is a space. */
  predicate Solid(s: string) { s != "" && !IsSpace(s[0]) && !IsSpace(s[|s| - 1]) }

  predicate Blank(s: string) { forall k :: 0 <= k < |s| ==> IsSpace(s[k]) }

  lemma {:induction false} TrimLeftBlank(l: string, s: string)
    requires Blank(l) && s != "" && !IsSpace(s[0])
    ensures TrimLeft(l + s) == s
  {
    hide IsSpace;
    if l == "" {
      assert l + s == s;
    } else {
      assert (l + s)[1..] == l[1..] + s && IsSpace(l[0]);
      TrimLeftBlank(l[1..], s);
    }
  }

  lemma {:induction false} TrimRightBlank(s: string, r: string)
    requires Blank(r) && s != "" && !IsSpace(s[|s| - 1])
    ensures TrimRight(s + r) == s
  {
    hide IsSpace;
    if r == "" {
      assert s + r == s;
    } else {
      assert (s + r)[..|s + r| - 1] == s + r[..|r| - 1] && IsSpace(r[|r| - 1]);
      TrimRightBlank(s, r[..|r| - 1]);
    }
  }

  lemma TrimPadded(l: string, s: string, r: string)
    requires Blank(l) && Solid(s) && Blank(r)
    ensures Trim(l + s + r) == s
  {
    hide IsSpace, TrimLeft, TrimRight;
    assert l + s + r == l + (s + r);
    TrimLeftBlank(l, s + r);
    TrimRightBlank(s, r);
  }

  lemma TrimSolid(s: string)
    requires s == "" || Solid(s)
    ensures Trim(s) == s
  {
    if s != "" {
      TrimPadded("", s, "");
      assert "" + s + "" == s;
    }
  }

  // Balance of printed texts

  lemma WordIsPlain(c: char)
    requires IsWord(c) || IsDelimiter(c)
    ensures IsPlain(c) && !IsSpace(c) && c != '('
  {
  }

  lemma WordsArePlain(s: string)
    requires forall k :: 0 <= k < |s| ==> IsWord(s[k]) || IsDelimiter(s[k])
    ensures Plain(s) && (s != "" ==> Solid(s)) && forall k :: 0 <= k < |s| ==> s[k] != '('
  {
    hide IsWord, IsDelimiter, IsPlain, IsSpace;
    forall k | 0 <= k < |s|
      ensures IsPlain(s[k]) && !IsSpace(s[k]) && s[k] != '('
    {
      WordIsPlain(s[k]);
    }
  }

  lemma BalancedConcat(s: string, t: string)
    requires BalancedToken(s) && BalancedToken(t)
    ensures BalancedToken(s + t)
  {
    hide Depth;
    DepthConcat(s, t, 0, false);
  }

  // Number literals hold no character the scanners stop at

  predicate NumeralChar(c: char) { IsWord(c) || c == '.' || c == '+' || c == '-' }

  predicate Numerals(s: string) { forall k :: 0 <= k < |s| ==> NumeralChar(s[k]) }

  lemma {:induction false} DigitsAreNumerals(s: string)
    ensures Numerals(s[..DigitRun(s)])
  {
    if s != "" && IsDigit(s[0]) {
      DigitsAreNumerals(s[1..]);
      assert s[..DigitRun(s)] == [s[0]] + s[1..][..DigitRun(s[1..])];
    }
  }

  lemma ExponentNumeralChars(s: string)
    requires IsExponent(s)
    ensures Numerals(s)
  {
    hide DigitRun;
    var signed := s[1] == '+' || s[1] == '-';
    var digits := if signed then s[2..] else s[1..];
    DigitsAreNumerals(digits);
    assert digits[..DigitRun(digits)] == digits;
    assert s == if signed then [s[0], s[1]] + digits else [s[0]] + digits;
  }

  lemma DecimalNumeralChars(s: string)
    requires IsDecimal(s)
    ensures Numerals(s)
  {
    hide DigitRun, IsExponent, NumeralChar;
    if s == "Infinity" { InfinityNumeralChars(); return; }
    var whole := DigitRun(s);
    var rest := s[whole..];
    DigitsAreNumerals(s);
    assert s == s[..whole] + rest;
    if rest != "" && rest[0] == '.' {
      var fraction := DigitRun(rest[1..]);
      var exponent := rest[1 + fraction..];
      DigitsAreNumerals(rest[1..]);
      assert rest == "." + rest[1..][..fraction] + exponent;
      DotNumeralChar();
      if exponent != "" { ExponentNumeralChars(exponent); }
    } else if rest != "" {
      ExponentNumeralChars(rest);
    }
  }

  lemma InfinityNumeralChars()
    ensures Numerals("Infinity")
  {
  }

  lemma DotNumeralChar()
    ensures NumeralChar('.')
  {
  }

  lemma NumericIsPlain(s: string)
    requires IsNumeric(s)
    ensures Plain(s) && Solid(s) && ParenIndex(s) == |s|
  {
    hide IsDecimal, ParenIndex, IsPlain, IsSpace, IsWord;
    if IsRadixLiteral(s) {
      RadixNumeralChars(s);
    } else {
      var t := if s[0] == '+' || s[0] == '-' then s[1..] else s;
      DecimalNumeralChars(t);
      assert s == if s[0] == '+' || s[0] == '-' then [s[0]] + t else t;
    }
    assert Numerals(s);
    forall c | NumeralChar(c) ensures IsPlain(c) && !IsSpace(c) && c != '(' { NumeralCharIsPlain(c); }
  }

  lemma RadixNumeralChars(s: string)
    requires IsRadixLiteral(s)
    ensures Numerals(s)
  {
  }

  lemma NumeralCharIsPlain(c: char)
    requires NumeralChar(c)
    ensures IsPlain(c) && !IsSpace(c) && c != '('
  {
  }

  // Paths and their segments

  lemma HopsAreText(hops: seq<Hop>)
    requires AreHops(hops)
    ensures forall k :: 0 <= k < |HopsText(hops)| ==> IsWord(HopsText(hops)[k]) || IsDelimiter(HopsText(hops)[k])
    ensures HopsText(hops) == "" <==> hops == []
    ensures HopsText(hops) != "" ==> IsDelimiter(HopsText(hops)[0])
    decreases |hops|
  {
    if hops != [] {
      assert IsHop(hops[0]);
      HopsAreText(hops[1..]);
    }
  }

  lemma SegmentsStep(s: string)
    requires s != ""
    ensures Segments(s) == if s[0] == '.' || s[0] == ':' then [""] + Segments(s[1..])
                           else [[s[0]] + Segments(s[1..])[0]] + Segments(s[1..])[1..]
  {
  }

  lemma {:induction false} NamesSplit(name: string, hops: seq<Hop>)
    requires IsName(name) && AreHops(hops)
    ensures Segments(name + HopsText(hops)) == [name] + Names(hops)
    decreases |hops|, |name|
  {
    hide Segments, HopsText, Names;
    var text := name + HopsText(hops);
    if name != "" {
      assert IsWord(name[0]);
      NamesSplit(name[1..], hops);
      assert text[1..] == name[1..] + HopsText(hops);
      SegmentsStep(text);
      assert [name[0]] + name[1..] == name;
    } else if hops != [] {
      HopsFirst(hops);
      NamesSplit(hops[0].name, hops[1..]);
      assert text == HopsText(hops);
      SegmentsStep(text);
    } else {
      HopsNone(hops);
      assert text == "";
      assert Segments("") == [""] by { SegmentsNone(); }
    }
  }

  lemma SegmentsNone()
    ensures Segments("") == [""]
  {
  }

  lemma HopsNone(hops: seq<Hop>)
    requires hops == []
    ensures HopsText(hops) == "" && Names(hops) == []
  {
  }

  lemma HopsFirst(hops: seq<Hop>)
    requires AreHops(hops) && hops != []
    ensures IsHop(hops[0]) && AreHops(hops[1..])
    ensures HopsText(hops) != "" && HopsText(hops)[0] == hops[0].delimiter
    ensures HopsText(hops)[1..] == hops[0].name + HopsText(hops[1..])
    ensures Names(hops) == [hops[0].name] + Names(hops[1..])
  {
    assert IsHop(hops[0]);
  }

  lemma ColonConcat(a: string, b: string)
    ensures HasColon(a + b) <==> HasColon(a) || HasColon(b)
  {
    assert forall k :: 0 <= k < |a| ==> (a + b)[k] == a[k];
    assert forall k :: 0 <= k < |b| ==> (a + b)[|a| + k] == b[k];
  }

  lemma {:induction false} ColonIff(name: string, hops: seq<Hop>)
    requires IsName(name) && AreHops(hops)
    ensures HasColon(name + HopsText(hops)) <==> ByColon(hops)
    decreases |hops|
  {
    hide HasColon, ByColon;
    ColonConcat(name, HopsText(hops));
    NoColon(name);
    if hops == [] {
      NoColon("");
      ColonNowhere();
    } else {
      var delimiter, rest := [hops[0].delimiter], hops[0].name + HopsText(hops[1..]);
      assert IsHop(hops[0]);
      ColonIff(hops[0].name, hops[1..]);
      assert HopsText(hops) == delimiter + rest;
      ColonConcat(delimiter, rest);
      ColonAlone(hops[0].delimiter);
      ColonFirst(hops);
    }
  }

  lemma NoColon(name: string)
    requires IsName(name)
    ensures !HasColon(name)
  {
  }

  lemma ColonAlone(c: char)
    ensures HasColon([c]) <==> c == ':'
  {
    if c == ':' { assert [c][0] == ':'; }
  }

  lemma ColonNowhere()
    ensures !ByColon([])
  {
  }

  lemma ColonFirst(hops: seq<Hop>)
    requires hops != []
    ensures ByColon(hops) <==> hops[0].delimiter == ':' || ByColon(hops[1..])
  {
    if ByColon(hops[1..]) {
      var i :| 0 <= i < |hops[1..]| && hops[1..][i].delimiter == ':';
      assert hops[i + 1].delimiter == ':';
    }
    if ByColon(hops) {
      var i :| 0 <= i < |hops| && hops[i].delimiter == ':';
      if i > 0 { assert hops[1..][i - 1].delimiter == ':'; }
    }
  }

  lemma {:induction false} WordRunOf(name: string, rest: string)
    requires IsName(name) && (rest == "" || IsDelimiter(rest[0]))
    ensures WordRun(name + rest) == |name|
  {
    if name == "" {
      assert name + rest == rest;
    } else {
      assert (name + rest)[1..] == name[1..] + rest && IsWord(name[0]);
      WordRunOf(name[1..], rest);
    }
  }

  lemma RootIs(head: string, hops: seq<Hop>)
    requires IsName(head) && AreHops(hops)
    ensures Root(head + HopsText(hops)) == RootName(head)
  {
    HopsAreText(hops);
    var path := head + HopsText(hops);
    WordRunOf(head, HopsText(hops));
    if head != "" {
      assert path[..|head|] == head && path[0] == head[0];
    } else {
      assert path == HopsText(hops);
    }
  }

  // Balance of printed trees

  lemma {:induction false} GapDepth(gap: string)
    requires forall k :: 0 <= k < |gap| ==> IsSeparator(gap[k])
    ensures Balanced(gap)
  {
    if gap != "" {
      assert IsSeparator(gap[0]);
      GapDepth(gap[1..]);
    }
  }

  lemma GapIsSeparators(gap: string)
    requires IsGap(gap)
    ensures forall k :: 0 <= k < |gap| ==> IsSeparator(gap[k])
  {
    hide IsSpace;
    var c :| 0 <= c < |gap| && Blank(gap[..c]) && gap[c] == ',' && forall i :: c < i < |gap| ==> IsSeparator(gap[i]);
    forall k | 0 <= k < |gap| ensures IsSeparator(gap[k]) {
      if k < c { assert gap[..c][k] == gap[k]; }
    }
  }

  lemma BlankDepth(s: string)
    requires Blank(s)
    ensures Balanced(s)
  {
    GapDepth(s);
  }

  lemma {:induction false} ArgText(a: Arg, st: Style)
    requires WellFormedArg(a) && IsStyle(st)
    ensures BalancedToken(PrintArg(a, st)) && Solid(PrintArg(a, st))
    decreases a, 0
  {
    hide Depth, IsNumeric, Escape, IsSpace, Print, WellFormed, NumeralText, IsStyle;
    match a
    case StringLit(s, quote) => LiteralScan(s, quote, ""); QuoteIsNoSpace(quote);
    case BoolLit(b) => WordsArePlain(PrintArg(a, st)); PlainDepth(PrintArg(a, st), 0, false);
    case NilLit => WordsArePlain("nil"); PlainDepth("nil", 0, false);
    case NumberLit(n) => NumeralReads(n); NumericIsPlain(NumeralText(n)); PlainDepth(NumeralText(n), 0, false);
    case WordLit(text) =>
    case TableLit(inner) => Wrapped('{', inner, '}', ""); BracketsAreNoSpaces();
    case CallLit(call) => CallText(call, st);
  }

  lemma QuoteIsNoSpace(quote: char)
    requires IsQuote(quote)
    ensures !IsSpace(quote)
  {
  }

  lemma {:induction false} ArgsText(args: seq<Arg>, st: Style)
    requires WellFormedArgs(args) && IsStyle(st)
    ensures Balanced(PrintArgs(args, st))
    ensures if args == [] then PrintArgs(args, st) == "" else Solid(PrintArgs(args, st))
    decreases args, 1
  {
    hide Depth, IsSpace, PrintArg, WellFormedArg, IsSeparator, IsGap;
    if args == [] {
      PlainDepth("", 0, true);
    } else {
      var first := PrintArg(args[0], st);
      ArgText(args[0], st);
      DepthRelax(first, 0);
      if |args| > 1 {
        var rest := PrintArgs(args[1..], st);
        ArgsText(args[1..], st);
        GapIsSeparators(st.gap);
        GapDepth(st.gap);
        DepthConcat(st.gap, rest, 0, true);
        DepthConcat(first, st.gap + rest, 0, true);
      }
    }
  }

  /** The arguments in their parentheses balance, and what stands inside does. */
  lemma {:induction false} ParensText(args: seq<Arg>, st: Style)
    requires WellFormedArgs(args) && IsStyle(st)
    ensures BalancedToken(PrintParens(args, st)) && Solid(PrintParens(args, st))
    ensures Balanced(st.pad + PrintArgs(args, st) + st.pad)
    decreases args, 2
  {
    hide Depth, IsSpace, PrintArgs, WellFormedArg, IsGap, Blank;
    ArgsText(args, st);
    BlankDepth(st.pad);
    DepthConcat(st.pad, PrintArgs(args, st), 0, true);
    DepthConcat(st.pad + PrintArgs(args, st), st.pad, 0, true);
    Wrapped('(', st.pad + PrintArgs(args, st) + st.pad, ')', "");
    BracketsAreNoSpaces();
  }

  lemma PathText(text: string)
    requires forall k :: 0 <= k < |text| ==> IsWord(text[k]) || IsDelimiter(text[k])
    ensures BalancedToken(text) && (text == "" || Solid(text)) && forall k :: 0 <= k < |text| ==> text[k] != '('
  {
    hide Depth, IsWord, IsDelimiter, IsSpace;
    WordsArePlain(text);
    PlainDepth(text, 0, false);
  }

  lemma WholePath(head: string, hops: seq<Hop>)
    requires IsName(head) && AreHops(hops)
    ensures var path := head + HopsText(hops);
            BalancedToken(path) && (path == "" || Solid(path)) && forall k :: 0 <= k < |path| ==> path[k] != '('
  {
    hide Depth, IsDelimiter, IsSpace;
    HopsAreText(hops);
    PathText(head + HopsText(hops));
  }

  lemma SolidConcat(s: string, t: string)
    requires (s == "" || Solid(s)) && (t == "" || Solid(t))
    ensures s + t == "" || Solid(s + t)
  {
    hide IsSpace;
    if s == "" { assert s + t == t; }
    if t == "" { assert s + t == s; }
  }

  lemma {:induction false} CallText(c: Call, st: Style)
    requires WellFormed(c) && IsStyle(st)
    ensures BalancedToken(Print(c, st)) && Solid(Print(c, st))
    decreases c, 3
  {
    hide Depth, IsSpace, PrintParens, PrintSteps, WellFormedArg, WellFormedLink;
    hide HopsText, IsName, AreHops, IsGap, Blank;
    var steps := PrintSteps(c, st);
    ParensText(c.args, st);
    StepsText(c, st);
    WholePath(c.head, c.hops);
    SpacedText(st.space, steps);
    BalancedConcat(PrintParens(c.args, st), Spaced(st.space, steps));
    BalancedConcat(c.head + HopsText(c.hops), PrintParens(c.args, st) + Spaced(st.space, steps));
    SolidEnds(c.head + HopsText(c.hops), PrintParens(c.args, st), Spaced(st.space, steps));
  }

  lemma SpacedText(space: string, text: string)
    requires Blank(space) && BalancedToken(text) && (text == "" || Solid(text))
    ensures BalancedToken(Spaced(space, text))
    ensures Spaced(space, text) == "" || !IsSpace(Spaced(space, text)[|Spaced(space, text)| - 1])
  {
    hide Depth, IsSpace;
    assert Plain(space) by { BlankIsPlain(space); }
    PlainDepth(space, 0, false);
    BalancedConcat(space, text);
    EmptyDepth();
  }

  lemma EmptyDepth()
    ensures BalancedToken("")
  {
  }

  lemma BlankIsPlain(s: string)
    requires Blank(s)
    ensures Plain(s)
  {
    forall k | 0 <= k < |s| ensures IsPlain(s[k]) { assert IsSpace(s[k]); }
  }

  lemma SolidEnds(a: string, b: string, c: string)
    requires (a == "" || Solid(a)) && Solid(b) && (c == "" || !IsSpace(c[|c| - 1]))
    ensures Solid(a + (b + c))
  {
    hide IsSpace;
  }

  lemma BracketsAreNoSpaces()
    ensures !IsSpace('(') && !IsSpace(')') && !IsSpace('{') && !IsSpace('}')
  {
  }

  lemma {:induction false} StepsText(c: Call, st: Style)
    requires WellFormed(c) && IsStyle(st)
    ensures BalancedToken(PrintSteps(c, st)) && (PrintSteps(c, st) == "" || Solid(PrintSteps(c, st)))
    ensures PrintSteps(c, st) != "" ==> IsDelimiter(PrintSteps(c, st)[0])
    decreases c, 2
  {
    hide Depth, IsSpace, PrintChain, WellFormedLink, WellFormedArg, IsWord, IsDelimiter, IsStyle;
    ChainText(c.chain, st);
    HopsAreText(c.tail);
    PathText(HopsText(c.tail));
    BalancedConcat(PrintChain(c.chain, st), HopsText(c.tail));
    SolidConcat(PrintChain(c.chain, st), HopsText(c.tail));
  }

  lemma FirstHop(l: Link)
    requires WellFormedLink(l)
    ensures AreHops([l.first] + l.more) && IsName(l.first.name)
    ensures HopsText([l.first] + l.more) == [l.first.delimiter] + (l.first.name + HopsText(l.more))
  {
    var hops := [l.first] + l.more;
    assert hops[0] == l.first && hops[1..] == l.more;
    forall i | 0 <= i < |hops| ensures IsHop(hops[i]) { if i > 0 { assert hops[i] == l.more[i - 1]; } }
  }

  lemma {:induction false} LinkText(l: Link, st: Style)
    requires WellFormedLink(l) && IsStyle(st)
    ensures BalancedToken(PrintLink(l, st)) && Solid(PrintLink(l, st)) && IsDelimiter(PrintLink(l, st)[0])
    decreases l, 2
  {
    hide Depth, IsSpace, PrintParens, WellFormedArg, IsWord, IsDelimiter, HopsText, IsStyle, AreHops;
    var hops := [l.first] + l.more;
    ParensText(l.args, st);
    FirstHop(l);
    HopsAreText(hops);
    PathText(HopsText(hops));
    BalancedConcat(HopsText(hops), PrintParens(l.args, st));
    SolidConcat(HopsText(hops), PrintParens(l.args, st));
  }

  lemma {:induction false} ChainText(chain: seq<Link>, st: Style)
    requires (forall l :: l in chain ==> WellFormedLink(l)) && IsStyle(st)
    ensures BalancedToken(PrintChain(chain, st)) && (PrintChain(chain, st) == "" || Solid(PrintChain(chain, st)))
    ensures PrintChain(chain, st) != "" ==> IsDelimiter(PrintChain(chain, st)[0])
    decreases chain, 3
  {
    hide Depth, IsSpace, PrintLink, WellFormedLink, IsDelimiter, IsStyle;
    if chain == [] {
      EmptyDepth();
    } else {
      LinkText(chain[0], st);
      ChainText(chain[1..], st);
      BalancedConcat(PrintLink(chain[0], st), PrintChain(chain[1..], st));
      SolidConcat(PrintLink(chain[0], st), PrintChain(chain[1..], st));
    }
  }

  // Parsing printed trees

  /** What follows an argument: nothing, or a gap and another argument. */
  ghost predicate Follows(gap: string, rest: string) { IsGap(gap) || (gap == "" && rest == "") }

  /** A bare token reaches up to the comma behind it or to the end of the text. */
  lemma TokenReach(gap: string, rest: string) returns (k: nat)
    requires Follows(gap, rest)
    ensures k <= |gap| && Blank(gap[..k]) && BareLength(gap + rest, 0) == k
  {
    hide IsSpace;
    if gap == "" && rest == "" {
      k := 0;
    } else {
      k :| 0 <= k < |gap| && Blank(gap[..k]) && gap[k] == ',' && forall i :: k < i < |gap| ==> IsSeparator(gap[i]);
      assert gap + rest == gap[..k] + (gap[k..] + rest);
      BlankIsPlain(gap[..k]);
      PlainDepth(gap[..k], 0, false);
      BarePasses(gap[..k], gap[k..] + rest, 0);
      CommaEndsToken(gap[k..] + rest);
    }
  }

  /** A bare token is read whole, blanks behind it apart. */
  lemma BareParses(token: string, gap: string, rest: string) returns (k: nat)
    requires BalancedToken(token) && Solid(token) && !IsQuote(token[0]) && token[0] != '{'
    requires Follows(gap, rest) && TokenValue(token).Ok?
    ensures k <= |gap| && FirstArg(token + (gap + rest)) == Ok((TokenValue(token).value, |token| + k))
  {
    hide Depth, IsSpace, TokenValue, Follows, BareLength, Trim, Blank;
    k := TokenReach(gap, rest);
    BarePasses(token, gap + rest, 0);
    NothingBlank();
    TrimPadded("", token, gap[..k]);
    var text := token + (gap + rest);
    assert Substring(text, 0, |token| + k) == "" + token + gap[..k];
    assert text[0] == token[0];
  }

  lemma NothingBlank()
    ensures Blank("")
  {
  }

  lemma CommaEndsToken(t: string)
    requires t == "" || t[0] == ','
    ensures BareLength(t, 0) == 0
  {
  }

  /** An argument at the start of a text is read, up to blanks behind it. */
  ghost predicate Reads(text: string, gap: string, rest: string, v: Value, k: nat) {
    k <= |gap| && text != "" && FirstArg(text + (gap + rest)) == Ok((v, |text| + k))
  }

  lemma {:induction false} ArgParses(a: Arg, st: Style, gap: string, rest: string) returns (k: nat)
    requires WellFormedArg(a) && IsStyle(st) && Follows(gap, rest)
    ensures Reads(PrintArg(a, st), gap, rest, DenoteArg(a), k)
    decreases a, 0
  {
    hide Depth, IsNumeric, Escape, IsSpace, Print, Denote, WellFormed, NumeralText, IsStyle, Follows, Reads,
      IsBareWord, Balanced, IsNumeral;
    k := 0;
    match a
    case StringLit(s, quote) => StringReads(s, quote, gap, rest);
    case BoolLit(b) => k := KeywordReads(PrintArg(a, st), gap, rest);
    case NilLit => k := KeywordReads(PrintArg(a, st), gap, rest);
    case NumberLit(n) => k := NumberReads(n, gap, rest);
    case WordLit(word) => k := WordReads(word, gap, rest);
    case TableLit(inner) => TableReads(inner, gap, rest);
    case CallLit(call) => k := CallArgReads(call, st, gap, rest);
  }

  lemma StringReads(s: string, quote: char, gap: string, rest: string)
    requires IsQuote(quote)
    ensures Reads([quote] + Escape(s, quote) + [quote], gap, rest, Str(s), 0)
  {
    hide Depth, Escape, Unescape, FirstArg, SkipLength, Substring;
    LiteralScan(s, quote, gap + rest);
    EscapeRoundTrip(s, quote);
    QuotedArg([quote] + Escape(s, quote) + [quote], gap + rest, s);
  }

  lemma TableReads(inner: string, gap: string, rest: string)
    requires Balanced(inner)
    ensures Reads("{" + inner + "}", gap, rest, Str("{" + inner + "}"), 0)
  {
    hide Depth, FirstArg, CloseLength;
    Wrapped('{', inner, '}', gap + rest);
    TableArg("{" + inner + "}", gap + rest);
  }

  lemma KeywordReads(text: string, gap: string, rest: string) returns (k: nat)
    requires (text == "true" || text == "false" || text == "nil") && Follows(gap, rest)
    ensures var value := if text == "true" then Bool(true) else if text == "false" then Bool(false) else Null;
            Reads(text, gap, rest, value, k)
  {
    hide Depth, FirstArg, TokenValue, Follows;
    WordsArePlain(text);
    PlainDepth(text, 0, false);
    KeywordValue(text);
    k := BareParses(text, gap, rest);
  }

  lemma NumberReads(n: Numeral, gap: string, rest: string) returns (k: nat)
    requires IsNumeral(n) && Follows(gap, rest)
    ensures Reads(NumeralText(n), gap, rest, Num(NumeralText(n)), k)
  {
    hide Depth, FirstArg, TokenValue, Follows, NumeralText, IsNumeric, IsSpace;
    NumeralReads(n);
    NumericIsPlain(NumeralText(n));
    PlainDepth(NumeralText(n), 0, false);
    NumberValue(n);
    k := BareParses(NumeralText(n), gap, rest);
  }

  lemma WordReads(word: string, gap: string, rest: string) returns (k: nat)
    requires IsBareWord(word) && Follows(gap, rest)
    ensures Reads(word, gap, rest, Str(word), k)
  {
    hide Depth, FirstArg, TokenValue, Follows, NumeralText;
    WordValue(word);
    k := BareParses(word, gap, rest);
  }

  lemma {:induction false} CallArgReads(c: Call, st: Style, gap: string, rest: string) returns (k: nat)
    requires WellFormed(c) && IsStyle(st) && Follows(gap, rest)
    ensures Reads(Print(c, st), gap, rest, Eval(Denote(c)), k)
    decreases c, 4
  {
    hide Depth, FirstArg, TokenValue, Follows, Print, Denote, WellFormed, IsStyle, IsSpace, IsQuote;
    CallText(c, st);
    CallReads(c, st);
    CallValue(c, st);
    CallStarts(c, st);
    k := BareParses(Print(c, st), gap, rest);
  }

  lemma QuotedArg(lit: string, t: string, body: string)
    requires lit != "" && IsQuote(lit[0]) && SkipLength(lit + t) == |lit|
    requires |lit| >= 1 && Unescape(Substring(lit + t, 1, |lit| - 1)) == body
    ensures FirstArg(lit + t) == Ok((Str(body), |lit|))
  {
    hide SkipLength, Unescape, Substring;
  }

  lemma TableArg(text: string, t: string)
    requires text != "" && text[0] == '{' && CloseLength(text + t, 0) == |text|
    ensures FirstArg(text + t) == Ok((Str(text), |text|))
  {
    hide CloseLength;
    assert (text + t)[..|text|] == text;
  }

  lemma KeywordValue(text: string)
    requires text == "true" || text == "false" || text == "nil"
    ensures TokenValue(text) ==
            Ok(if text == "true" then Bool(true) else if text == "false" then Bool(false) else Null)
  {
  }

  lemma NumberValue(n: Numeral)
    requires IsNumeral(n)
    ensures var text := NumeralText(n); TokenValue(text) == Ok(Num(text)) && !IsQuote(text[0]) && text[0] != '{'
  {
    hide NumeralText, IsNumeric, CommandOf;
    NumeralReads(n);
    NumbersExactly(NumeralText(n));
    NumericIsPlain(NumeralText(n));
    assert IsPlain(NumeralText(n)[0]);
  }

  lemma WordValue(text: string)
    requires IsBareWord(text)
    ensures TokenValue(text) == Ok(Str(text))
  {
    hide IsNumeric, NumeralText, Depth, IsSpace;
    if IsNumeric(text) { var n := NumeralSplits(text); }
    NoParen(text);
  }

  lemma CallToken(token: string, c: Command)
    requires HasParen(token) && !IsNumeric(token) && token != "true" && token != "false" && token != "nil"
    requires CommandOf(token) == Ok(c)
    ensures TokenValue(token) == Ok(Eval(c))
  {
    hide CommandOf, IsNumeric, ParenIndex;
  }

  lemma CallValue(c: Call, st: Style)
    requires WellFormed(c) && CommandOf(Print(c, st)) == Ok(Denote(c))
    ensures TokenValue(Print(c, st)) == Ok(Eval(Denote(c)))
  {
    hide CommandOf, Denote, IsNumeric, WellFormed, Print, IsQuote, ParenIndex, TokenValue;
    CallStarts(c, st);
    var text := Print(c, st);
    if IsNumeric(text) { NumericIsPlain(text); }
    KeywordsHaveNone(text);
    CallToken(text, Denote(c));
  }

  lemma CallStarts(c: Call, st: Style)
    requires WellFormed(c)
    ensures HasParen(Print(c, st)) && !IsQuote(Print(c, st)[0]) && Print(c, st)[0] != '{'
  {
    hide WellFormedArg, WellFormedLink, PrintParens, PrintSteps, Spaced, HopsText, ParenIndex;
    var text, path := Print(c, st), c.head + HopsText(c.hops);
    ParensStart(c.args, st);
    assert text[|path|] == PrintParens(c.args, st)[0];
    HasParenAt(text, |path|);
    PathStarts(c);
    if path != "" { assert text[0] == path[0]; }
  }

  lemma ParensStart(args: seq<Arg>, st: Style)
    ensures PrintParens(args, st) != "" && PrintParens(args, st)[0] == '('
  {
    hide PrintArgs;
  }

  lemma HasParenAt(text: string, i: nat)
    requires i < |text| && text[i] == '('
    ensures HasParen(text)
  {
  }

  lemma KeywordsHaveNone(text: string)
    requires HasParen(text)
    ensures text != "true" && text != "false" && text != "nil"
  {
    WordsArePlain("true");
    WordsArePlain("false");
    WordsArePlain("nil");
  }

  lemma PathStarts(c: Call)
    requires WellFormed(c)
    ensures var path := c.head + HopsText(c.hops); path != "" ==> !IsQuote(path[0]) && path[0] != '{'
  {
    hide WellFormedArg, WellFormedLink;
    HopsAreText(c.hops);
    var path := c.head + HopsText(c.hops);
    if path != "" { WordIsPlain(path[0]); }
  }

  /** One argument and then the rest of the list. */
  lemma ArgsStep(first: string, gap: string, rest: string, k: nat, v: Value, vs: seq<Value>)
    requires first != "" && !IsSeparator(first[0]) && k <= |gap|
    requires FirstArg(first + (gap + rest)) == Ok((v, |first| + k))
    requires (forall i :: 0 <= i < |gap| ==> IsSeparator(gap[i])) && ArgsOf(rest) == Ok(vs)
    ensures ArgsOf(first + (gap + rest)) == Ok([v] + vs)
  {
    hide IsSeparator, FirstArg;
    var text := first + (gap + rest);
    assert Drop(text, |first| + k) == gap[k..] + rest;
    GapSkipped(gap[k..], rest);
    assert text[0] == first[0];
  }

  lemma {:induction false} ArgsParse(args: seq<Arg>, st: Style)
    requires WellFormedArgs(args) && IsStyle(st)
    ensures ArgsOf(PrintArgs(args, st)) == Ok(DenoteArgs(args))
    decreases args, 1
  {
    hide Depth, IsSpace, PrintArg, WellFormedArg, IsSeparator, FirstArg, DenoteArg, IsGap, ArgsOf;
    if args == [] {
      NoArgs();
    } else {
      var first := PrintArg(args[0], st);
      ArgText(args[0], st);
      FirstIsNoSeparator(first);
      if |args| == 1 {
        var k := ArgParses(args[0], st, "", "");
        NoArgs();
        ArgsStep(first, "", "", k, DenoteArg(args[0]), []);
        assert first + ("" + "") == first && DenoteArgs(args[1..]) == [];
      } else {
        var rest := PrintArgs(args[1..], st);
        var k := ArgParses(args[0], st, st.gap, rest);
        GapIsSeparators(st.gap);
        ArgsParse(args[1..], st);
        ArgsStep(first, st.gap, rest, k, DenoteArg(args[0]), DenoteArgs(args[1..]));
      }
    }
  }

  lemma NoArgs()
    ensures ArgsOf("") == Ok([])
  {
  }

  lemma FirstIsNoSeparator(text: string)
    requires BalancedToken(text) && Solid(text)
    ensures !IsSeparator(text[0])
  {
  }

  lemma {:induction false} GapSkipped(gap: string, s: string)
    requires forall k :: 0 <= k < |gap| ==> IsSeparator(gap[k])
    ensures ArgsOf(gap + s) == ArgsOf(s)
  {
    hide IsSeparator, FirstArg;
    if gap == "" {
      assert gap + s == s;
    } else {
      assert (gap + s)[1..] == gap[1..] + s && IsSeparator(gap[0]);
      GapSkipped(gap[1..], s);
    }
  }

  lemma {:induction false} ParenIndexAt(p: string, t: string)
    requires forall k :: 0 <= k < |p| ==> p[k] != '('
    requires t != "" && t[0] == '('
    ensures ParenIndex(p + t) == |p|
  {
    if p == "" {
      assert p + t == t;
    } else {
      assert (p + t)[1..] == p[1..] + t;
      ParenIndexAt(p[1..], t);
    }
  }

  lemma {:induction false} TrimBlank(s: string)
    requires Blank(s)
    ensures Trim(s) == ""
  {
    if s != "" {
      assert IsSpace(s[0]);
      TrimBlank(s[1..]);
    }
  }

  lemma TrimPads(pad: string, args: string)
    requires Blank(pad) && (args == "" || Solid(args))
    ensures Trim(pad + args + pad) == args
  {
    hide IsSpace;
    if args == "" { TrimBlank(pad + args + pad); } else { TrimPadded(pad, args, pad); }
  }

  /** A parenthesised argument text is cut out of a call exactly. */
  lemma ArgsCut(args: seq<Arg>, st: Style, t: string)
    requires WellFormedArgs(args) && IsStyle(st)
    ensures var parens := PrintParens(args, st);
            && |parens| >= 2 && CloseLength(parens + t, 0) == |parens|
            && Trim(Substring(parens + t, 1, |parens| - 1)) == PrintArgs(args, st)
            && (parens + t)[|parens|..] == t && (parens + t)[0] == '('
  {
    hide Depth, CloseLength, Trim, IsSpace, PrintArgs, WellFormedArg, IsGap;
    ParensText(args, st);
    ArgsText(args, st);
    var inner := st.pad + PrintArgs(args, st) + st.pad;
    var parens := PrintParens(args, st);
    Wrapped('(', inner, ')', t);
    assert (parens + t)[1..|parens| - 1] == inner;
    TrimPads(st.pad, PrintArgs(args, st));
  }

  /** What may stand behind a call whose last step is called: nothing, or blanks and a text that is no chain. */
  ghost predicate IsJunk(junk: string) {
    junk == "" || exists k :: 0 <= k < |junk| && Blank(junk[..k]) && Solid(junk[k..]) && !IsDelimiter(junk[k])
  }

  lemma JunkStarts(junk: string)
    requires IsJunk(junk) && junk != ""
    ensures !IsDelimiter(junk[0]) && !IsSpace(junk[|junk| - 1])
  {
    var k :| 0 <= k < |junk| && Blank(junk[..k]) && Solid(junk[k..]) && !IsDelimiter(junk[k]);
    if k > 0 { assert IsSpace(junk[..k][0]); }
  }

  lemma {:induction false} CallReads(c: Call, st: Style)
    requires WellFormed(c) && IsStyle(st)
    ensures CommandOf(Print(c, st)) == Ok(Denote(c))
    decreases c, 3
  {
    hide CommandOf, Denote, Print, WellFormed, IsStyle;
    CallParses(c, st, "");
    assert Print(c, st) + "" == Print(c, st);
  }

  /** How a call text is put together from its path, its parentheses and what follows them. */
  lemma CommandIs(path: string, parens: string, after: string, args: seq<Value>, chain: seq<Step>)
    requires (forall k :: 0 <= k < |path| ==> path[k] != '(') && |parens| >= 2 && (parens + after)[0] == '('
    requires CloseLength(parens + after, 0) == |parens|
    requires ArgsOf(Trim(Substring(parens + after, 1, |parens| - 1))) == Ok(args)
    requires ChainOf(Trim(after)) == Ok(chain)
    ensures CommandOf(path + (parens + after)) == Ok(Command(path, args, HasColon(path), Root(path), chain))
  {
    hide ArgsOf, ChainOf, Trim, Substring, CloseLength, ParenIndex, HasColon, Root;
    var text := path + (parens + after);
    ParenIndexAt(path, parens + after);
    assert text[..|path|] == path && text[|path|..] == parens + after && (parens + after)[|parens|..] == after;
    LongText(text, parens);
  }

  /** The text of a call, with junk behind it, is read as the call. */
  lemma {:induction false} CallParses(c: Call, st: Style, junk: string)
    requires WellFormed(c) && IsStyle(st) && IsJunk(junk) && (junk != "" ==> c.tail == [])
    ensures CommandOf(Print(c, st) + junk) == Ok(Denote(c))
    decreases c, 2
  {
    hide Depth, IsSpace, PrintParens, PrintArgs, PrintSteps, WellFormedArg, WellFormedLink, HopsText, ArgsOf, ChainOf,
      Trim, Substring, CloseLength, ParenIndex, DenoteArgs, DenoteChain, DenoteTail, IsName, AreHops, IsStyle, IsJunk,
      HasColon, Root, RootName, ByColon, Spaced, CommandOf;
    var path, parens := c.head + HopsText(c.hops), PrintParens(c.args, st);
    var after := Spaced(st.space, PrintSteps(c, st)) + junk;
    ArgsCut(c.args, st, after);
    WholePath(c.head, c.hops);
    ArgsParse(c.args, st);
    StepsParse(c, st, junk);
    CommandIs(path, parens, after, DenoteArgs(c.args), DenoteChain(c.chain) + DenoteTail(c.tail));
    assert Print(c, st) + junk == path + (parens + after);
    ColonIff(c.head, c.hops);
    RootIs(c.head, c.hops);
  }

  lemma LongText(text: string, parens: string)
    requires |text| >= |parens| >= 2
    ensures text != "("
  {
  }

  /** What follows the parentheses of a call, trimmed, is its chain and the junk. */
  lemma StepsCut(c: Call, st: Style, junk: string)
    requires WellFormed(c) && IsStyle(st) && IsJunk(junk)
    ensures PrintSteps(c, st) != "" ==>
              Trim(Spaced(st.space, PrintSteps(c, st)) + junk) == PrintSteps(c, st) + junk
    ensures PrintSteps(c, st) == "" ==>
              var t := Trim(Spaced(st.space, PrintSteps(c, st)) + junk); t == "" || !IsDelimiter(t[0])
  {
    hide Depth, IsSpace, PrintSteps, WellFormed, Trim, IsDelimiter, IsGap;
    var steps := PrintSteps(c, st);
    StepsText(c, st);
    if steps != "" {
      if junk != "" { JunkStarts(junk); }
      TrimPadded(st.space, steps + junk, "");
      assert Spaced(st.space, steps) + junk == st.space + (steps + junk) + "";
      NothingBlank();
    } else {
      assert Spaced(st.space, steps) + junk == junk;
      JunkTrimmed(junk);
    }
  }

  lemma JunkTrimmed(junk: string)
    requires IsJunk(junk)
    ensures Trim(junk) == "" || !IsDelimiter(Trim(junk)[0])
  {
    hide IsSpace, Trim, IsDelimiter;
    if junk == "" {
      NothingBlank();
      TrimBlank(junk);
    } else {
      var k :| 0 <= k < |junk| && Blank(junk[..k]) && Solid(junk[k..]) && !IsDelimiter(junk[k]);
      NothingBlank();
      TrimPadded(junk[..k], junk[k..], "");
      assert junk == junk[..k] + junk[k..] + "";
    }
  }

  lemma {:induction false} StepsParse(c: Call, st: Style, junk: string)
    requires WellFormed(c) && IsStyle(st) && IsJunk(junk) && (junk != "" ==> c.tail == [])
    ensures var t := Trim(Spaced(st.space, PrintSteps(c, st)) + junk);
            ChainOf(t) == Ok(DenoteChain(c.chain) + DenoteTail(c.tail))
    decreases c, 1
  {
    hide Depth, IsSpace, WellFormedArg, WellFormedLink, HopsText, ChainOf, Trim, DenoteChain, DenoteTail, IsStyle,
      PrintChain, IsDelimiter, IsJunk, AreHops, PrintSteps, Spaced;
    StepsCut(c, st, junk);
    StepsAre(c, st);
    TailParses(c.tail, junk);
    if PrintSteps(c, st) != "" {
      ChainParses(c.chain, st, HopsText(c.tail) + junk, DenoteTail(c.tail));
      assert PrintSteps(c, st) + junk == PrintChain(c.chain, st) + (HopsText(c.tail) + junk);
    } else {
      NoSteps(Trim(Spaced(st.space, PrintSteps(c, st)) + junk));
      NothingDenoted(c);
    }
  }

  lemma StepsAre(c: Call, st: Style)
    requires WellFormed(c) && IsStyle(st)
    ensures PrintSteps(c, st) == PrintChain(c.chain, st) + HopsText(c.tail)
    ensures PrintSteps(c, st) == "" ==> c.chain == [] && c.tail == []
  {
    hide PrintLink, WellFormedArg, IsStyle;
    HopsAreText(c.tail);
    if c.chain != [] { LinkHead(c.chain[0], st); }
  }

  lemma NothingDenoted(c: Call)
    requires c.chain == [] && c.tail == []
    ensures DenoteChain(c.chain) + DenoteTail(c.tail) == []
  {
  }

  lemma NoSteps(t: string)
    requires t == "" || !IsDelimiter(t[0])
    ensures ChainOf(t) == Ok([])
  {
  }

  /** A last step that is not called takes the rest of the text. */
  lemma TailParses(tail: seq<Hop>, junk: string)
    requires AreHops(tail) && IsJunk(junk) && (junk != "" ==> tail == [])
    ensures ChainOf(HopsText(tail) + junk) == Ok(DenoteTail(tail))
  {
    hide IsJunk, IsDelimiter, Segments;
    if tail == [] {
      if junk != "" { JunkStarts(junk); }
      assert HopsText(tail) + junk == junk;
      NoSteps(junk);
    } else {
      var s := HopsText(tail);
      assert s + junk == s;
      UncalledStep(tail);
      LastStep(s);
    }
  }

  lemma LastStep(s: string)
    requires s != "" && IsDelimiter(s[0]) && FirstStep(s).Ok? && FirstStep(s).value.1 == |s|
    ensures ChainOf(s) == Ok([FirstStep(s).value.0])
  {
    hide FirstStep;
    assert s[|s|..] == "";
    NoSteps("");
    var none: seq<Step> := [];
    assert [FirstStep(s).value.0] + none == [FirstStep(s).value.0];
  }

  lemma StepWithoutCall(s: string)
    requires s != "" && forall k :: 0 <= k < |s| ==> s[k] != '('
    ensures FirstStep(s) == Ok((Step(Segments(s[1..]), [], HasColon(s)), |s|))
  {
    hide Segments, HasColon, ArgsOf, CloseLength;
    var name := s[1..];
    NoParen(name);
    assert name[..|name|] == name && [s[0]] + name == s;
  }

  lemma UncalledStep(tail: seq<Hop>)
    requires AreHops(tail) && tail != []
    ensures var s := HopsText(tail);
            && s != "" && IsDelimiter(s[0])
            && FirstStep(s) == Ok((Step(Names(tail), [], ByColon(tail)), |s|))
  {
    hide Segments, HasColon, IsDelimiter, IsWord, ByColon, HopsText, FirstStep, Names;
    var s := HopsText(tail);
    HopsAreText(tail);
    HopsFirst(tail);
    PathText(s);
    StepWithoutCall(s);
    NamesSplit(tail[0].name, tail[1..]);
    ColonIff("", tail);
    assert "" + s == s;
  }

  lemma {:induction false} NoParen(s: string)
    requires forall k :: 0 <= k < |s| ==> s[k] != '('
    ensures ParenIndex(s) == |s|
  {
    if s != "" { NoParen(s[1..]); }
  }

  /** How a called step is put together from its delimiter, its name and its parentheses. */
  lemma StepIs(delimiter: char, name: string, parens: string, t: string, args: seq<Value>)
    requires (forall k :: 0 <= k < |name| ==> name[k] != '(') && |parens| >= 2 && (parens + t)[0] == '('
    requires CloseLength(parens + t, 0) == |parens|
    requires ArgsOf(Trim(Substring(parens + t, 1, |parens| - 1))) == Ok(args)
    ensures FirstStep([delimiter] + (name + (parens + t))) ==
            Ok((Step(Segments(name), args, HasColon([delimiter] + name)), 1 + |name| + |parens|))
  {
    hide ArgsOf, Trim, Substring, CloseLength, ParenIndex, HasColon, Segments;
    var s := [delimiter] + (name + (parens + t));
    assert s[1..] == name + (parens + t);
    ParenIndexAt(name, parens + t);
    assert s[1..][..|name|] == name && s[1..][|name|..] == parens + t;
  }

  lemma {:induction false} LinkParses(l: Link, st: Style, t: string)
    requires WellFormedLink(l) && IsStyle(st)
    ensures FirstStep(PrintLink(l, st) + t) == Ok((DenoteLink(l), |PrintLink(l, st)|))
    decreases l, 2
  {
    hide Depth, IsSpace, PrintParens, WellFormedArg, IsDelimiter, ArgsOf, IsWord, HopsText, PrintArgs, IsStyle, IsName,
      Trim, Substring, CloseLength, ParenIndex, DenoteArgs, Segments, HasColon, ByColon, AreHops, FirstStep, IsHop;
    var parens := PrintParens(l.args, st);
    var name := l.first.name + HopsText(l.more);
    FirstHop(l);
    WholePath(l.first.name, l.more);
    ArgsCut(l.args, st, t);
    ArgsParse(l.args, st);
    StepIs(l.first.delimiter, name, parens, t, DenoteArgs(l.args));
    LinkNames(l);
    assert PrintLink(l, st) + t == [l.first.delimiter] + (name + (parens + t));
  }

  lemma LinkNames(l: Link)
    requires WellFormedLink(l)
    ensures var name := l.first.name + HopsText(l.more);
            && Segments(name) == [l.first.name] + Names(l.more)
            && HasColon([l.first.delimiter] + name) == ByColon([l.first] + l.more)
  {
    hide Segments, HasColon, ByColon, IsWord;
    NamesSplit(l.first.name, l.more);
    FirstHop(l);
    ColonIff("", [l.first] + l.more);
    assert "" + HopsText([l.first] + l.more) == [l.first.delimiter] + (l.first.name + HopsText(l.more));
  }

  lemma ChainCons(s: string, step: Step, k: nat, more: seq<Step>)
    requires s != "" && IsDelimiter(s[0]) && k <= |s| && FirstStep(s) == Ok((step, k)) && ChainOf(s[k..]) == Ok(more)
    ensures ChainOf(s) == Ok([step] + more)
  {
    hide FirstStep, IsDelimiter;
  }

  lemma {:induction false} ChainParses(chain: seq<Link>, st: Style, t: string, last: seq<Step>)
    requires (forall l :: l in chain ==> WellFormedLink(l)) && IsStyle(st) && ChainOf(t) == Ok(last)
    ensures ChainOf(PrintChain(chain, st) + t) == Ok(DenoteChain(chain) + last)
    decreases chain, 3
  {
    hide PrintLink, DenoteLink, FirstStep, IsStyle, WellFormedLink, ChainOf, IsDelimiter;
    if chain == [] {
      assert PrintChain(chain, st) + t == t && DenoteChain(chain) + last == last;
    } else {
      var first, rest := PrintLink(chain[0], st), PrintChain(chain[1..], st) + t;
      LinkHead(chain[0], st);
      LinkParses(chain[0], st, rest);
      ChainParses(chain[1..], st, t, last);
      assert PrintChain(chain, st) + t == first + rest;
      assert (first + rest)[|first|..] == rest && (first + rest)[0] == first[0];
      ChainCons(first + rest, DenoteLink(chain[0]), |first|, DenoteChain(chain[1..]) + last);
      assert [DenoteLink(chain[0])] + (DenoteChain(chain[1..]) + last) == DenoteChain(chain) + last;
    }
  }

  lemma LinkHead(l: Link, st: Style)
    requires WellFormedLink(l)
    ensures PrintLink(l, st) != "" && IsDelimiter(PrintLink(l, st)[0])
  {
    hide WellFormedArg, PrintParens;
    FirstHop(l);
  }

  /** The parser returns the tree a text was printed from, whatever stands around it that is no part of a call. */
  lemma CommandRoundTrips(c: Call, st: Style, before: string, junk: string, after: string)
    requires WellFormed(c) && IsStyle(st) && Blank(before) && Blank(after)
    requires IsJunk(junk) && (junk != "" ==> c.tail == [])
    ensures ParseCommandText(before + (Print(c, st) + junk) + after) == Ok(Denote(c))
  {
    hide Print, Denote, WellFormed, CommandOf, IsSpace, IsStyle, IsJunk;
    CallText(c, st);
    CallParses(c, st, junk);
    if junk != "" { JunkStarts(junk); }
    TrimPadded(before, Print(c, st) + junk, after);
  }

  /** A path that is not called is a command without arguments. */
  lemma PathParses(head: string, hops: seq<Hop>, before: string, after: string)
    requires IsName(head) && AreHops(hops) && head + HopsText(hops) != "" && Blank(before) && Blank(after)
    ensures var path := head + HopsText(hops);
            ParseCommandText(before + path + after) == Ok(Command(path, [], ByColon(hops), RootName(head), []))
  {
    hide HopsText, IsSpace, Trim, HasColon, Root, ByColon, RootName, IsName, AreHops, ParenIndex;
    var path := head + HopsText(hops);
    WholePath(head, hops);
    TrimPadded(before, path, after);
    NoParen(path);
    ColonIff(head, hops);
    RootIs(head, hops);
    assert path[..|path|] == path;
  }

  /** Argument lists on their own come back the same way. */
  lemma ArgumentsRoundTrip(args: seq<Arg>, st: Style)
    requires WellFormedArgs(args) && IsStyle(st)
    ensures ParseArgsText(st.pad + PrintArgs(args, st) + st.pad) == Ok(DenoteArgs(args))
  {
    hide PrintArgs, DenoteArgs, ArgsOf, IsSpace, Trim, WellFormedArg, IsGap;
    ArgsText(args, st);
    TrimPads(st.pad, PrintArgs(args, st));
    ArgsParse(args, st);
  }

  // Literals that are not closed

  /** Without its closing quote a literal loses its last character, and nothing but its quote is read as that quote. */
  lemma UnclosedLiteral(s: string, quote: char)
    requires IsQuote(quote)
    ensures s == "" ==> ArgsOf([quote] + Escape(s, quote)) == Ok([Str([quote])])
    ensures s != "" ==>
              var init, last := s[..|s| - 1], s[|s| - 1];
              ArgsOf([quote] + Escape(s, quote)) ==
              Ok([Str(if last == quote || last == '\\' then init + "\\" else init)])
  {
    hide Escape, Unescape, SkipBody;
    var lit := [quote] + Escape(s, quote);
    assert lit[1..] == Escape(s, quote);
    OpenBody(s, quote, "");
    assert Escape(s, quote) + "" == Escape(s, quote);
    if s == "" {
      NothingEscaped(s, quote);
      assert lit == [quote] && Substring(lit, 1, 0) == [quote];
      OnlyLiteral(lit, [quote]);
      QuoteStays(quote);
    } else {
      EscapeGrows(s, quote);
      var init, last := s[..|s| - 1], s[|s| - 1];
      assert s == init + [last];
      EscapeSnoc(init, last, quote);
      var cut := Escape(s, quote)[..|Escape(s, quote)| - 1];
      assert Substring(lit, 1, |lit| - 1) == cut;
      if last == quote || last == '\\' {
        assert cut == Escape(init, quote) + "\\";
        UnescapeTail(init, quote, "\\");
      } else {
        assert cut == Escape(init, quote) + "" && init + "" == init;
        UnescapeTail(init, quote, "");
      }
      OnlyLiteral(lit, cut);
    }
  }

  /** A backslash that ends the text stands for itself. */
  lemma DanglingBackslash(s: string, quote: char)
    requires IsQuote(quote)
    ensures ArgsOf([quote] + (Escape(s, quote) + "\\")) == Ok([Str(s + "\\")])
  {
    hide Escape, Unescape, SkipBody;
    var body := Escape(s, quote) + "\\";
    var lit := [quote] + body;
    assert lit[1..] == body;
    OpenBody(s, quote, "\\");
    assert Substring(lit, 1, |lit|) == body;
    UnescapeTail(s, quote, "\\");
    OnlyLiteral(lit, body);
  }

  lemma OnlyLiteral(lit: string, body: string)
    requires lit != "" && IsQuote(lit[0]) && SkipLength(lit) >= |lit| && Substring(lit, 1, SkipLength(lit) - 1) == body
    ensures ArgsOf(lit) == Ok([Str(Unescape(body))])
  {
    hide SkipLength, Unescape, Substring;
    assert Drop(lit, SkipLength(lit)) == "";
    QuoteIsNoSeparator(lit[0]);
    var none: seq<Value> := [];
    assert [Str(Unescape(body))] + none == [Str(Unescape(body))];
  }

  lemma QuoteIsNoSeparator(c: char)
    requires IsQuote(c)
    ensures !IsSeparator(c)
  {
  }

  lemma EscapeGrows(s: string, quote: char)
    requires s != ""
    ensures Escape(s, quote) != ""
  {
  }

  lemma NothingEscaped(s: string, quote: char)
    requires s == ""
    ensures Escape(s, quote) == ""
  {
  }

  lemma QuoteStays(quote: char)
    requires quote != '\\'
    ensures Unescape([quote]) == [quote]
  {
    assert [quote][1..] == "";
  }

  /** The scan of a literal without a closing quote runs to the end, or one past it behind a backslash. */
  lemma {:induction false} OpenBody(s: string, quote: char, tail: string)
    requires quote != '\\' && (tail == "" || tail == "\\")
    ensures SkipBody(Escape(s, quote) + tail, quote) == |Escape(s, quote)| + 2 * |tail|
  {
    if s == "" {
      assert Escape(s, quote) + tail == tail;
    } else {
      hide SkipBody, Escape;
      OpenBody(s[1..], quote, tail);
      EscapeFirst(s, quote, tail);
      ScanPasses(s[0], Escape(s[1..], quote) + tail, quote);
    }
  }

  lemma {:induction false} EscapeSnoc(s: string, c: char, quote: char)
    ensures Escape(s + [c], quote) == Escape(s, quote) + if c == quote || c == '\\' then ['\\', c] else [c]
  {
    if s == "" {
      assert s + [c] == [c] && [c][1..] == "";
    } else {
      assert (s + [c])[1..] == s[1..] + [c];
      EscapeSnoc(s[1..], c, quote);
    }
  }

  lemma UnescapeFirst(c: char, rest: string)
    ensures Unescape(['\\', c] + rest) == [c] + Unescape(rest)
    ensures c != '\\' ==> Unescape([c] + rest) == [c] + Unescape(rest)
  {
    assert (['\\', c] + rest)[2..] == rest && ([c] + rest)[1..] == rest;
  }

  lemma {:induction false} UnescapeTail(s: string, quote: char, tail: string)
    requires tail == "" || tail == "\\"
    ensures Unescape(Escape(s, quote) + tail) == s + tail
  {
    hide Unescape;
    if s == "" {
      assert Escape(s, quote) + tail == tail && s + tail == tail;
      TailStays(tail);
    } else {
      UnescapeTail(s[1..], quote, tail);
      var rest := Escape(s[1..], quote) + tail;
      UnescapeFirst(s[0], rest);
      assert Escape(s, quote) + tail == (if s[0] == quote || s[0] == '\\' then ['\\', s[0]] else [s[0]]) + rest;
      assert [s[0]] + (s[1..] + tail) == s + tail;
    }
  }

  lemma TailStays(tail: string)
    requires tail == "" || tail == "\\"
    ensures Unescape(tail) == tail
  {
    if tail != "" { assert tail[1..] == ""; }
  }
}

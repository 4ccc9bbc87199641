/** The split of a guide block into header and step lines, numbered as in the bundle it came from. */
module GuideLines {
  import opened Results
  import opened RustText
  import opened GuideBlocks

  datatype LocatedLine = LocatedLine(lineNo: nat, text: string)

  datatype SplitGuide = SplitGuide(headers: seq<LocatedLine>, bodyLines: seq<LocatedLine>)

  datatype ImportError = NoGuideBlock | UnterminatedGuideBlock

  predicate StartsWith(s: string, p: string) { p <= s }

  predicate IsStepMarker(line: string) {
    var t := TrimStart(line);
    t == "step" || StartsWith(t, "step ") || StartsWith(t, "step\t") || StartsWith(t, "step<")
  }

  predicate MarkerText(t: string) {
    t == "step" || StartsWith(t, "step ") || StartsWith(t, "step\t") || StartsWith(t, "step<")
  }

  /** A step marker is white space and then `step`, alone or in front of a blank, a tab or `<`. */
  lemma StepMarkerIff(line: string)
    ensures IsStepMarker(line) <==> exists k :: 0 <= k <= |line| && AllWhite(line[..k]) && MarkerText(line[k..])
  {
    hide TrimStart, IsWhitespace;
    var n := TrimStartIs(line);
    if k :| 0 <= k <= |line| && AllWhite(line[..k]) && MarkerText(line[k..]) {
      MarkerStarts(line[k..]);
      SameStart(line, n, k);
    }
  }

  /** White space ends at one place only. */
  lemma SameStart(line: string, n: nat, k: nat)
    requires n <= |line| && AllWhite(line[..n]) && (n < |line| ==> !IsWhitespace(line[n]))
    requires k < |line| && AllWhite(line[..k]) && !IsWhitespace(line[k..][0])
    ensures n == k
  {
    hide IsWhitespace;
    assert forall j :: 0 <= j < k ==> line[..k][j] == line[j];
    assert forall j :: 0 <= j < n ==> line[..n][j] == line[j];
  }

  lemma MarkerStarts(t: string)
    requires MarkerText(t)
    ensures t != "" && !IsWhitespace(t[0])
  {
  }

  /** Index of the first newline, or the length. */
  function LineEnd(s: string): (n: nat)
    ensures n <= |s| && (n < |s| ==> s[n] == '\n') && forall k :: 0 <= k < n ==> s[k] != '\n'
  {
    if s == "" || s[0] == '\n' then 0 else 1 + LineEnd(s[1..])
  }

  /** A carriage return belongs to the line ending only in front of a newline. */
  function StripReturn(line: string): string {
    if line != "" && line[|line| - 1] == '\r' then line[..|line| - 1] else line
  }

  /** `str::lines`, each line with its number when the first is number `first`. */
  function Lines(s: string, first: nat): seq<LocatedLine>
    decreases |s|
  {
    if s == "" then [] else
    var n := LineEnd(s);
    if n == |s| then [LocatedLine(first, s)]
    else [LocatedLine(first, StripReturn(s[..n]))] + Lines(s[n + 1..], first + 1)
  }

  function NonBlank(ls: seq<LocatedLine>): seq<LocatedLine> {
    if ls == [] then []
    else NonBlank(ls[..|ls| - 1]) + (if Trim(ls[|ls| - 1].text) == "" then [] else [ls[|ls| - 1]])
  }

  /** Number of leading lines that are not step markers. */
  function HeaderCount(ls: seq<LocatedLine>): (n: nat)
    ensures n <= |ls| && (n < |ls| ==> IsStepMarker(ls[n].text))
    ensures forall k :: 0 <= k < n ==> !IsStepMarker(ls[k].text)
  {
    if ls == [] || IsStepMarker(ls[0].text) then 0 else 1 + HeaderCount(ls[1..])
  }

  function SplitAt(ls: seq<LocatedLine>): SplitGuide {
    SplitGuide(ls[..HeaderCount(ls)], ls[HeaderCount(ls)..])
  }

  function SplitSource(source: string): Result<SplitGuide, ImportError> {
    match Find(source, OPEN, 0)
    case None => Err(NoGuideBlock)
    case Some(o) =>
      match Find(source, CLOSE, o + |OPEN|)
      case None => Err(UnterminatedGuideBlock)
      case Some(c) =>
        var start := |Lines(source[..o + |OPEN|], 0)|;
        Ok(SplitAt(NonBlank(Lines(source[o + |OPEN|..c], start))))
  }

  lemma {:induction false} HeaderCountSnoc(ls: seq<LocatedLine>, l: LocatedLine)
    ensures HeaderCount(ls + [l]) ==
            if HeaderCount(ls) < |ls| then HeaderCount(ls) else if IsStepMarker(l.text) then |ls| else |ls| + 1
    decreases |ls|
  {
    hide IsStepMarker;
    if ls == [] { assert ls + [l] == [l] && [l][1..] == []; } else {
      assert (ls + [l])[1..] == ls[1..] + [l];
      HeaderCountSnoc(ls[1..], l);
    }
  }

  method Split(source: string) returns (r: Result<SplitGuide, ImportError>)
    ensures r == SplitSource(source)
  {
    hide Find, Lines, NonBlank, SplitAt;
    var open := Find(source, OPEN, 0);
    FindFits(source, OPEN, 0);
    if open.None? { return Err(NoGuideBlock); }
    var inside := open.value + |OPEN|;
    var close := SliceFind(source, CLOSE, inside, |source|);
    FindFits(source, CLOSE, inside);
    if close.None? { return Err(UnterminatedGuideBlock); }
    var body := source[inside..inside + close.value];
    var lines := Lines(body, |Lines(source[..inside], 0)|);
    var headers, bodyLines := SplitLines(lines);
    r := Ok(SplitGuide(headers, bodyLines));
  }

  method SplitLines(lines: seq<LocatedLine>) returns (headers: seq<LocatedLine>, bodyLines: seq<LocatedLine>)
    ensures SplitGuide(headers, bodyLines) == SplitAt(NonBlank(lines))
  {
    hide Trim, IsStepMarker, HeaderCount;
    headers, bodyLines := [], [];
    var seenStep := false;
    assert NonBlank(lines[..0]) == [];
    for i := 0 to |lines|
      invariant headers + bodyLines == NonBlank(lines[..i])
      invariant HeaderCount(headers + bodyLines) == |headers|
      invariant seenStep <==> bodyLines != []
    {
      var line := lines[i];
      ghost var kept := headers + bodyLines;
      assert lines[..i + 1][..i] == lines[..i];
      if Trim(line.text) == "" { continue; }
      HeaderCountSnoc(kept, line);
      if !seenStep && !IsStepMarker(line.text) {
        assert kept + [line] == (headers + [line]) + bodyLines;
        headers := headers + [line];
      } else {
        assert kept + [line] == headers + (bodyLines + [line]);
        seenStep := true;
        bodyLines := bodyLines + [line];
      }
    }
    assert lines[..|lines|] == lines;
  }

  /** Headers and body are the non-blank lines in order, cut before the first step marker. */
  lemma SplitPartitions(ls: seq<LocatedLine>)
    ensures var g := SplitAt(ls);
            && g.headers + g.bodyLines == ls
            && (forall i :: 0 <= i < |g.headers| ==> !IsStepMarker(g.headers[i].text))
            && (g.bodyLines != [] ==> IsStepMarker(g.bodyLines[0].text))
  {
    hide IsStepMarker;
  }

  /** Exactly the lines that are not all white space are kept. */
  lemma {:induction false} NonBlankKeeps(ls: seq<LocatedLine>)
    ensures forall l :: l in NonBlank(ls) <==> l in ls && !AllWhite(l.text)
    decreases |ls|
  {
    hide Trim, AllWhite;
    if ls != [] {
      NonBlankKeeps(ls[..|ls| - 1]);
      TrimNothingIff(ls[|ls| - 1].text);
      assert ls == ls[..|ls| - 1] + [ls[|ls| - 1]];
    }
  }

  /** Line numbers grow. */
  ghost predicate Numbered(ls: seq<LocatedLine>) {
    forall i, j :: 0 <= i < j < |ls| ==> ls[i].lineNo < ls[j].lineNo
  }

  lemma {:induction false} LinesAreNumbered(s: string, first: nat)
    ensures forall i :: 0 <= i < |Lines(s, first)| ==> Lines(s, first)[i].lineNo == first + i
    decreases |s|
  {
    hide LineEnd, StripReturn;
    if s != "" && LineEnd(s) < |s| { LinesAreNumbered(s[LineEnd(s) + 1..], first + 1); }
  }

  lemma {:induction false} NonBlankNumbered(ls: seq<LocatedLine>)
    requires Numbered(ls)
    ensures Numbered(NonBlank(ls))
    decreases |ls|
  {
    hide Trim, AllWhite;
    if ls != [] {
      var init, last := ls[..|ls| - 1], ls[|ls| - 1];
      NonBlankNumbered(init);
      NonBlankKeeps(init);
      forall i | 0 <= i < |NonBlank(init)| ensures NonBlank(init)[i].lineNo < last.lineNo {
        assert NonBlank(init)[i] in init;
      }
    }
  }

  /** A text has as many lines as newlines, and one more if it ends inside a line. */
  lemma {:induction false} LinesCount(s: string, first: nat)
    ensures |Lines(s, first)| == Newlines(s) + if s == "" || s[|s| - 1] == '\n' then 0 else 1
    decreases |s|
  {
    hide LineEnd, StripReturn, Newlines;
    if s == "" {
      NewlinesNone(s);
    } else {
      var n := LineEnd(s);
      NewlinesNone(s[..n]);
      if n == |s| {
        assert s[..n] == s;
      } else {
        var rest := s[n + 1..];
        LinesCount(rest, first + 1);
        assert s == s[..n] + "\n" + rest;
        NewlinesConcat(s[..n] + "\n", rest);
        NewlinesConcat(s[..n], "\n");
        OneNewline();
      }
    }
  }

  lemma OneNewline()
    ensures Newlines("\n") == 1
  {
    assert "\n"[..0] == "";
  }

  /**
   * `text` is line number `number` of `s`, cut to the block body: it starts a line or the body at `p`, holds no
   * newline, and ends at `e` with the line or the body. A carriage return in front of the newline is dropped.
   */
  ghost predicate LineAt(s: string, p: nat, e: nat, bodyStart: nat, bodyEnd: nat, number: nat, text: string) {
    && bodyStart <= p <= e <= bodyEnd <= |s|
    && (p == bodyStart || s[p - 1] == '\n')
    && (forall k :: p <= k < e ==> s[k] != '\n')
    && (if e == bodyEnd then text == s[p..e] else s[e] == '\n' && text == StripReturn(s[p..e]))
    && number == LineOf(s, p)
  }

  ghost predicate LineSomewhere(s: string, bodyStart: nat, bodyEnd: nat, number: nat, text: string) {
    exists p: nat, e: nat :: LineAt(s, p, e, bodyStart, bodyEnd, number, text)
  }

  /** Every line of a part of `s` that starts a line there is numbered as in `s`. */
  lemma {:induction false} LinesNumbered(s: string, bodyStart: nat, from: nat, upto: nat, first: nat, shift: nat,
                                         l: LocatedLine)
    requires bodyStart <= from <= upto <= |s| && shift + first == LineOf(s, from)
    requires from == bodyStart || s[from - 1] == '\n'
    requires l in Lines(s[from..upto], first)
    ensures LineSomewhere(s, bodyStart, upto, shift + l.lineNo, l.text)
    decreases upto - from
  {
    hide Lines, LineEnd, LinesHeadOnly, Newlines, StripReturn;
    var part := s[from..upto];
    LinesHead(part, first, l);
    if l in LinesHeadOnly(part, first) {
      var n := LineEnd(part);
      PartLine(s, from, upto);
      SubSlice(s, from, upto, 0, n);
      assert LineAt(s, from, from + n, bodyStart, upto, shift + l.lineNo, l.text);
    } else {
      var n := LineEnd(part);
      var next := from + n + 1;
      SubSlice(s, from, upto, n + 1, |part|);
      PartLine(s, from, upto);
      NextLineNumber(s, from, n);
      LinesNumbered(s, bodyStart, next, upto, first + 1, shift, l);
    }
  }

  /** Every line of a part of `s` is listed, with its number, unless it is empty and nothing follows it. */
  lemma {:induction false} LinesComplete(s: string, bodyStart: nat, from: nat, upto: nat, first: nat, shift: nat,
                                         p: nat, e: nat, l: LocatedLine)
    requires bodyStart <= from <= p <= upto <= |s| && shift + first == LineOf(s, from)
    requires from == bodyStart || s[from - 1] == '\n'
    requires LineAt(s, p, e, bodyStart, upto, shift + l.lineNo, l.text) && l.text != ""
    ensures l in Lines(s[from..upto], first)
    decreases upto - from
  {
    hide Lines, LineEnd, LineAt, LineOf;
    LineParts(s, p, e, bodyStart, upto, shift + l.lineNo, l.text);
    if p == from {
      HeadLine(s, from, upto, e, first, l);
    } else {
      var n := LineEnd(s[from..upto]);
      LaterLine(s, from, upto, p);
      NextLineNumber(s, from, n);
      LinesComplete(s, bodyStart, from + n + 1, upto, first + 1, shift, p, e, l);
      LinesTail(s[from..upto], first, l);
    }
  }

  lemma LineParts(s: string, p: nat, e: nat, bodyStart: nat, upto: nat, number: nat, text: string)
    requires LineAt(s, p, e, bodyStart, upto, number, text) && text != ""
    ensures bodyStart <= p < e <= upto <= |s| && (p == bodyStart || s[p - 1] == '\n') && number == LineOf(s, p)
    ensures forall k :: p <= k < e ==> s[k] != '\n'
    ensures if e == upto then text == s[p..e] else s[e] == '\n' && text == StripReturn(s[p..e])
  {
    hide LineOf;
    NoEmptyLine(s, p, e, upto, text);
  }

  /** A line that starts behind `from` starts behind the line that starts there. */
  lemma LaterLine(s: string, from: nat, upto: nat, p: nat)
    requires from < p < upto <= |s| && s[p - 1] == '\n'
    ensures var n := LineEnd(s[from..upto]);
            && from + n < p && s[from + n] == '\n' && (forall k :: from <= k < from + n ==> s[k] != '\n')
            && s[from + n + 1..upto] == s[from..upto][n + 1..]
  {
    hide LineEnd;
    PartLine(s, from, upto);
    SubSlice(s, from, upto, LineEnd(s[from..upto]) + 1, upto - from);
  }

  lemma NoEmptyLine(s: string, p: nat, e: nat, upto: nat, text: string)
    requires p <= e <= upto <= |s| && text != "" && (text == s[p..e] || text == StripReturn(s[p..e]))
    ensures p < e
  {
  }

  lemma LinesTail(s: string, first: nat, l: LocatedLine)
    requires LineEnd(s) < |s| && l in Lines(s[LineEnd(s) + 1..], first + 1)
    ensures l in Lines(s, first)
  {
    hide LineEnd, StripReturn;
  }

  /** The line that starts where a part starts is the first one of the part. */
  lemma HeadLine(s: string, from: nat, upto: nat, e: nat, first: nat, l: LocatedLine)
    requires from < e <= upto <= |s| && l.lineNo == first && forall k :: from <= k < e ==> s[k] != '\n'
    requires if e == upto then l.text == s[from..e] else s[e] == '\n' && l.text == StripReturn(s[from..e])
    ensures l in Lines(s[from..upto], first)
  {
    hide LineEnd, StripReturn;
    var part := s[from..upto];
    var n := LineEnd(part);
    PartLine(s, from, upto);
    assert n == e - from;
    SubSlice(s, from, upto, 0, n);
  }

  lemma PartLine(s: string, from: nat, upto: nat)
    requires from <= upto <= |s|
    ensures var part := s[from..upto];
            var n := LineEnd(part);
            && (forall k :: from <= k < from + n ==> s[k] != '\n')
            && (n < |part| ==> s[from + n] == '\n' && part[n + 1..|part|] == part[n + 1..])
  {
    hide LineEnd;
    var part := s[from..upto];
    assert forall k :: from <= k < upto ==> s[k] == part[k - from];
  }

  /** The first line of a text. */
  function LinesHeadOnly(s: string, first: nat): seq<LocatedLine> {
    if s == "" then [] else
    var n := LineEnd(s);
    [LocatedLine(first, if n == |s| then s else StripReturn(s[..n]))]
  }

  lemma LinesHead(s: string, first: nat, l: LocatedLine)
    requires l in Lines(s, first)
    ensures s != ""
    ensures l in LinesHeadOnly(s, first) ==>
              l.lineNo == first && l.text == if LineEnd(s) == |s| then s else StripReturn(s[..LineEnd(s)])
    ensures l !in LinesHeadOnly(s, first) ==> LineEnd(s) < |s| && l in Lines(s[LineEnd(s) + 1..], first + 1)
  {
    hide LineEnd;
  }

  lemma NextLineNumber(s: string, from: nat, n: nat)
    requires from + n < |s| && s[from + n] == '\n' && forall k :: from <= k < from + n ==> s[k] != '\n'
    ensures LineOf(s, from + n + 1) == LineOf(s, from) + 1
  {
    assert s[..from + n] == s[..from] + s[from..from + n];
    NewlinesConcat(s[..from], s[from..from + n]);
    NewlinesNone(s[from..from + n]);
    assert s[..from + n + 1][..from + n] == s[..from + n];
  }

  /** An Ok block splits without error, from the body between its markers. */
  lemma BlockSplits(s: string, o: nat)
    requires Occurs(s, OPEN, o) && Verdict(s, o).Ok?
    ensures var c := Find(s, CLOSE, o + |OPEN|).value;
            && o + |OPEN| <= c <= |s|
            && SplitSource(Verdict(s, o).value.source) == Ok(SplitAt(NonBlank(Lines(s[o + |OPEN|..c], 1))))
  {
    hide Lines, NonBlank, SplitAt, Newlines, Find;
    var inside := o + |OPEN|;
    var c := Find(s, CLOSE, inside).value;
    FindFits(s, CLOSE, inside);
    BlockMarkers(s, o, c);
    var source := s[o..c + |CLOSE|];
    assert Verdict(s, o).value.source == source;
    assert source[|OPEN|..c - o] == s[inside..c] by { SubSlice(s, o, c + |CLOSE|, |OPEN|, c - o); }
    MarkerIsOneLine();
  }

  /** Inside the block the first markers are where the scan of the bundle found them. */
  lemma BlockMarkers(s: string, o: nat, c: nat)
    requires Occurs(s, OPEN, o) && Find(s, CLOSE, o + |OPEN|) == Some(c) && c + |CLOSE| <= |s|
    ensures var source := s[o..c + |CLOSE|];
            Find(source, OPEN, 0) == Some(0) && Find(source, CLOSE, |OPEN|) == Some(c - o) && source[..|OPEN|] == OPEN
  {
    hide Find;
    var inside, end := o + |OPEN|, c + |CLOSE|;
    var source := s[o..end];
    assert source[0..|OPEN|] == OPEN by { SubSlice(s, o, end, 0, |OPEN|); }
    FindAtStart(source, OPEN);
    assert s[inside..end] == source[|OPEN|..] by { SubSlice(s, o, end, |OPEN|, end - o); }
    SliceFindAbsolute(s, CLOSE, inside, end);
    SliceFindAbsolute(source, CLOSE, |OPEN|, |source|);
    assert source[|OPEN|..|source|] == source[|OPEN|..];
  }

  lemma FindAtStart(s: string, m: string)
    requires Occurs(s, m, 0)
    ensures Find(s, m, 0) == Some(0)
  {
  }

  lemma MarkerIsOneLine()
    ensures |Lines(OPEN, 0)| == 1
  {
    assert forall k :: 0 <= k < |OPEN| ==> OPEN[k] != '\n';
    var n := LineEnd(OPEN);
  }

  /**
   * What a split of the part of `s` from `inside` up to `upto` reports: each line that is not all white space, once, in
   * order, with its number, `shift` less than in `s`. Headers come before the first step marker.
   */
  ghost predicate Reports(s: string, inside: nat, upto: nat, shift: nat, g: SplitGuide) {
    var all := g.headers + g.bodyLines;
    && (forall l :: l in all <==> !AllWhite(l.text) && LineSomewhere(s, inside, upto, shift + l.lineNo, l.text))
    && Numbered(all)
    && (forall i :: 0 <= i < |g.headers| ==> !IsStepMarker(g.headers[i].text))
    && (g.bodyLines != [] ==> IsStepMarker(g.bodyLines[0].text))
  }

  lemma SplitReports(s: string, inside: nat, upto: nat, first: nat, shift: nat)
    requires inside <= upto <= |s| && shift + first == LineOf(s, inside)
    ensures Reports(s, inside, upto, shift, SplitAt(NonBlank(Lines(s[inside..upto], first))))
  {
    hide Lines, LineEnd, Newlines, NonBlank, SplitAt, IsStepMarker, AllWhite;
    var lines := Lines(s[inside..upto], first);
    var kept := NonBlank(lines);
    SplitPartitions(kept);
    LinesAreNumbered(s[inside..upto], first);
    NonBlankNumbered(lines);
    NonBlankKeeps(lines);
    forall l: LocatedLine | !AllWhite(l.text)
      ensures l in lines <==> LineSomewhere(s, inside, upto, shift + l.lineNo, l.text)
    {
      LineListed(s, inside, upto, first, shift, l);
    }
  }

  lemma LineListed(s: string, inside: nat, upto: nat, first: nat, shift: nat, l: LocatedLine)
    requires inside <= upto <= |s| && shift + first == LineOf(s, inside) && !AllWhite(l.text)
    ensures l in Lines(s[inside..upto], first) <==> LineSomewhere(s, inside, upto, shift + l.lineNo, l.text)
  {
    hide Lines, LineEnd, Newlines, StripReturn;
    assert l.text != "";
    if l in Lines(s[inside..upto], first) { LinesNumbered(s, inside, inside, upto, first, shift, l); }
    var number := shift + l.lineNo;
    if p: nat, e: nat :| LineAt(s, p, e, inside, upto, number, l.text) {
      LinesComplete(s, inside, inside, upto, first, shift, p, e, l);
    }
  }

  /** `o` is where the first OPEN of a text stands, and `c` where the first CLOSE behind it does. */
  ghost predicate FirstMarkers(source: string, o: nat, c: nat) {
    && Occurs(source, OPEN, o) && NoOpenBetween(source, 0, o)
    && o + |OPEN| <= c && Occurs(source, CLOSE, c) && NoCloseBetween(source, o + |OPEN|, c)
  }

  /** Splitting any text reports the lines between its first markers, numbered as in the text. */
  lemma SplitNumbers(source: string, o: nat, c: nat)
    requires FirstMarkers(source, o, c)
    ensures o + |OPEN| <= c <= |source| && SplitSource(source).Ok?
    ensures Reports(source, o + |OPEN|, c, 0, SplitSource(source).value)
  {
    hide Lines, Newlines, NonBlank, SplitAt, Find, Reports;
    FirstIs(source, OPEN, 0, o);
    FirstIs(source, CLOSE, o + |OPEN|, c);
    var inside := o + |OPEN|;
    LinesCount(source[..inside], 0);
    MarkerEnds(source, o);
    SplitReports(source, inside, c, LineOf(source, inside), 0);
  }

  lemma MarkerEnds(source: string, o: nat)
    requires Occurs(source, OPEN, o)
    ensures source[..o + |OPEN|] != "" && source[o + |OPEN| - 1] != '\n'
  {
    CharAt(source, OPEN, o, |OPEN| - 1);
  }

  /** Splitting fails exactly if a marker is missing, and says which. */
  lemma SplitFailsIff(source: string)
    ensures SplitSource(source) == Err(NoGuideBlock) <==> forall k :: 0 <= k < |source| ==> !Occurs(source, OPEN, k)
    ensures SplitSource(source).Ok? <==> exists o, c :: FirstMarkers(source, o, c)
  {
    hide Lines, Newlines, NonBlank, SplitAt, Occurs;
    var o := Find(source, OPEN, 0);
    if o.Some? {
      OpenFits(source, o.value);
      var c := Find(source, CLOSE, o.value + |OPEN|);
      if c.Some? { assert FirstMarkers(source, o.value, c.value); }
    }
    if o: nat, c: nat :| FirstMarkers(source, o, c) { SplitNumbers(source, o, c); }
  }

  /** Every Ok block reports exactly its own lines, and offset plus number is the line number in the bundle. */
  lemma AbsoluteLineNumbers(s: string, o: nat)
    requires Occurs(s, OPEN, o) && Verdict(s, o).Ok?
    ensures var block := Verdict(s, o).value;
            && SplitSource(block.source).Ok? && |OPEN| + |CLOSE| <= |block.source|
            && Reports(s, o + |OPEN|, o + |block.source| - |CLOSE|, block.lineOffset, SplitSource(block.source).value)
  {
    hide Lines, Find, Newlines, NonBlank, SplitAt, SplitSource, Reports;
    BlockSplits(s, o);
    var inside := o + |OPEN|;
    var c := Find(s, CLOSE, inside).value;
    assert s[..inside] == s[..o] + OPEN;
    NewlinesConcat(s[..o], OPEN);
    NewlinesNone(OPEN);
    SplitReports(s, inside, c, 1, Verdict(s, o).value.lineOffset);
  }
}

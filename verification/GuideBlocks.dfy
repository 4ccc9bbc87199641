/** Extraction of `RegisterGuide([[ ... ]])` blocks from a bundle, with recovery after malformed blocks. */
module GuideBlocks {
  import opened Results

  const OPEN: string := "RegisterGuide([["
  const CLOSE: string := "]])"

  predicate Occurs(s: string, m: string, i: nat) { i + |m| <= |s| && s[i..i + |m|] == m }

  /** First occurrence of `m` at or after `from`. */
  function Find(s: string, m: string, from: nat): (r: Option<nat>)
    requires from <= |s|
    ensures r.Some? ==> from <= r.value && Occurs(s, m, r.value) && forall k :: from <= k < r.value ==> !Occurs(s, m, k)
    ensures r.None? ==> forall k :: from <= k ==> !Occurs(s, m, k)
    decreases |s| - from
  {
    if Occurs(s, m, from) then Some(from)
    else if from < |s| then Find(s, m, from + 1)
    else None
  }

  function Newlines(s: string): nat {
    if s == "" then 0 else Newlines(s[..|s| - 1]) + (if s[|s| - 1] == '\n' then 1 else 0)
  }

  /** The count is that of the newlines in the text. */
  lemma {:induction false} NewlinesAreCounted(s: string)
    ensures Newlines(s) == |set i | 0 <= i < |s| && s[i] == '\n'|
    decreases |s|
  {
    var all := set i | 0 <= i < |s| && s[i] == '\n';
    if s != "" {
      var init := s[..|s| - 1];
      NewlinesAreCounted(init);
      var before := set i | 0 <= i < |init| && init[i] == '\n';
      assert all == if s[|s| - 1] == '\n' then before + {|s| - 1} else before;
    } else {
      assert all == {};
    }
  }

  // Blocks

  datatype GuideBlock = GuideBlock(source: string, lineOffset: nat)

  datatype BlockError =
    | UnterminatedBlock(line: nat)
    | NestedOpenBeforeClose(line: nat, nestedLine: nat)

  type Report = Result<GuideBlock, BlockError>

  function LineOf(s: string, i: nat): nat
    requires i <= |s|
  {
    Newlines(s[..i]) + 1
  }

  /** What the occurrence of OPEN at `o` deserves, decided by the next CLOSE and the next OPEN alone. */
  function Verdict(s: string, o: nat): Report
    requires Occurs(s, OPEN, o)
  {
    var inside := o + |OPEN|;
    match Find(s, CLOSE, inside)
    case None => Err(UnterminatedBlock(LineOf(s, o)))
    case Some(c) =>
      match Find(s, OPEN, inside)
      case Some(n) =>
        if n < c then Err(NestedOpenBeforeClose(LineOf(s, o), LineOf(s, n)))
        else Ok(GuideBlock(s[o..c + |CLOSE|], Newlines(s[..o])))
      case None => Ok(GuideBlock(s[o..c + |CLOSE|], Newlines(s[..o])))
  }

  /** All occurrences of OPEN from `from` on, in order. */
  function Opens(s: string, from: nat): (r: seq<nat>)
    requires from <= |s|
    ensures forall k :: 0 <= k < |r| ==> Occurs(s, OPEN, r[k])
    decreases |s| - from
  {
    if from == |s| then [] else (if Occurs(s, OPEN, from) then [from] else []) + Opens(s, from + 1)
  }

  /** The verdicts on a list of occurrences, up to and including the first unterminated one. */
  function Verdicts(s: string, opens: seq<nat>): (r: seq<Report>)
    requires forall k :: 0 <= k < |opens| ==> Occurs(s, OPEN, opens[k])
  {
    if opens == [] then [] else
    var v := Verdict(s, opens[0]);
    if v.Err? && v.error.UnterminatedBlock? then [v] else [v] + Verdicts(s, opens[1..])
  }

  lemma CharAt(s: string, m: string, i: nat, k: nat)
    requires Occurs(s, m, i) && k < |m|
    ensures s[i + k] == m[k]
  {
    assert s[i..i + |m|][k] == m[k];
  }

  /** Two occurrences of OPEN never overlap. */
  lemma OpensApart(s: string, i: nat, j: nat)
    requires Occurs(s, OPEN, i) && Occurs(s, OPEN, j) && i < j
    ensures i + |OPEN| <= j
  {
    OpenStartsOnce();
    if j < i + |OPEN| {
      OverlapAgrees(s, OPEN, i, OPEN, j, j);
    }
  }

  lemma OpenStartsOnce()
    ensures forall k :: 0 < k < |OPEN| ==> OPEN[k] != OPEN[0]
  {
    assert forall k :: 0 < k < |OPEN| ==> OPEN[k] != 'R';
  }

  /** At a position inside two occurrences both markers have the same character. */
  lemma OverlapAgrees(s: string, m: string, i: nat, l: string, j: nat, p: nat)
    requires Occurs(s, m, i) && Occurs(s, l, j) && i <= p < i + |m| && j <= p < j + |l|
    ensures m[p - i] == l[p - j]
  {
    CharAt(s, m, i, p - i);
    CharAt(s, l, j, p - j);
  }

  lemma MarkersDiffer(k: nat, l: nat)
    requires k < |OPEN| && l < |CLOSE|
    ensures OPEN[k] != CLOSE[l]
  {
    assert CLOSE[l] == ']' || CLOSE[l] == ')';
    assert forall i :: 0 <= i < |OPEN| ==> OPEN[i] != ']' && OPEN[i] != ')';
  }

  /** An occurrence of OPEN and one of CLOSE never overlap. */
  lemma MarkersApart(s: string, o: nat, c: nat)
    requires Occurs(s, OPEN, o) && Occurs(s, CLOSE, c)
    ensures o + |OPEN| <= c || c + |CLOSE| <= o
  {
    if o <= c < o + |OPEN| {
      MarkersDiffer(c - o, 0);
      OverlapAgrees(s, OPEN, o, CLOSE, c, c);
    } else if c < o < c + |CLOSE| {
      MarkersDiffer(0, o - c);
      OverlapAgrees(s, CLOSE, c, OPEN, o, o);
    }
  }

  /** The list of occurrences holds every occurrence once, in source order. */
  lemma {:induction false} OpensAreAll(s: string, from: nat)
    requires from <= |s|
    ensures forall o: nat :: o in Opens(s, from) <==> from <= o && Occurs(s, OPEN, o)
    ensures forall i, j :: 0 <= i < j < |Opens(s, from)| ==> Opens(s, from)[i] < Opens(s, from)[j]
    decreases |s| - from
  {
    hide Occurs;
    if from == |s| {
      forall o: nat | from <= o ensures !Occurs(s, OPEN, o) { NoRoom(s, o); }
    } else {
      OpensAreAll(s, from + 1);
      var rest := Opens(s, from + 1);
      forall i | 0 <= i < |rest| ensures from < rest[i] { assert rest[i] in rest; }
    }
  }

  lemma NoRoom(s: string, o: nat)
    requires |s| <= o
    ensures !Occurs(s, OPEN, o)
  {
  }

  predicate Unterminated(r: Report) { r.Err? && r.error.UnterminatedBlock? }

  /** Every occurrence gets its own verdict, except those after an unterminated one. */
  lemma {:induction false} VerdictsInOrder(s: string, opens: seq<nat>)
    requires forall k :: 0 <= k < |opens| ==> Occurs(s, OPEN, opens[k])
    ensures |Verdicts(s, opens)| <= |opens|
    ensures forall k :: 0 <= k < |Verdicts(s, opens)| ==> Verdicts(s, opens)[k] == Verdict(s, opens[k])
    ensures forall k :: 0 <= k < |Verdicts(s, opens)| - 1 ==> !Unterminated(Verdicts(s, opens)[k])
    ensures |Verdicts(s, opens)| < |opens| ==>
              Verdicts(s, opens) != [] && Unterminated(Verdicts(s, opens)[|Verdicts(s, opens)| - 1])
    decreases |opens|
  {
    hide Verdict, Occurs;
    if opens != [] {
      VerdictsInOrder(s, opens[1..]);
      var v, rest := Verdict(s, opens[0]), Verdicts(s, opens[1..]);
      if !Unterminated(v) {
        assert Verdicts(s, opens) == [v] + rest;
        forall k | 0 < k <= |rest| ensures Verdicts(s, opens)[k] == rest[k - 1] {}
      }
    }
  }

  /** An occurrence of OPEN is a block if and only if some CLOSE follows before any other OPEN. */
  lemma OkIff(s: string, o: nat)
    requires Occurs(s, OPEN, o)
    ensures Verdict(s, o).Ok? <==>
            exists c :: o + |OPEN| <= c && Occurs(s, CLOSE, c) && NoOpenBetween(s, o + |OPEN|, c)
  {
    var inside := o + |OPEN|;
    if Verdict(s, o).Ok? {
      var c := Find(s, CLOSE, inside).value;
      assert NoOpenBetween(s, inside, c);
    }
    if c :| inside <= c && Occurs(s, CLOSE, c) && NoOpenBetween(s, inside, c) {
      CloseMakesOk(s, o, c);
    }
  }

  lemma CloseMakesOk(s: string, o: nat, c: nat)
    requires Occurs(s, OPEN, o) && o + |OPEN| <= c && Occurs(s, CLOSE, c) && NoOpenBetween(s, o + |OPEN|, c)
    ensures Verdict(s, o).Ok?
  {
    var first, next := Find(s, CLOSE, o + |OPEN|), Find(s, OPEN, o + |OPEN|);
    assert first.Some? && first.value <= c;
    assert next.Some? ==> next.value >= c;
  }

  ghost predicate NoOpenBetween(s: string, from: nat, upto: nat) {
    forall k :: from <= k < upto ==> !Occurs(s, OPEN, k)
  }

  ghost predicate NoCloseBetween(s: string, from: nat, upto: nat) {
    forall k :: from <= k < upto ==> !Occurs(s, CLOSE, k)
  }

  /** What a verdict says: the text up to the next CLOSE, or where the boundary is malformed. */
  ghost predicate Says(s: string, o: nat, r: Report)
    requires Occurs(s, OPEN, o)
  {
    var inside := o + |OPEN|;
    match r
    case Ok(block) =>
      exists c :: inside <= c && Occurs(s, CLOSE, c) && NoCloseBetween(s, inside, c) && NoOpenBetween(s, inside, c)
        && block.source == s[o..c + |CLOSE|] && block.lineOffset == Newlines(s[..o])
    case Err(UnterminatedBlock(line)) => NoCloseBetween(s, inside, |s|) && line == Newlines(s[..o]) + 1
    case Err(NestedOpenBeforeClose(line, nested)) =>
      && !NoCloseBetween(s, inside, |s|) && line == Newlines(s[..o]) + 1
      && exists n :: inside <= n && Occurs(s, OPEN, n) && NoOpenBetween(s, inside, n) && NoCloseBetween(s, inside, n)
           && nested == Newlines(s[..n]) + 1
  }

  lemma CloseFits(s: string, from: nat)
    requires from <= |s|
    ensures NoCloseBetween(s, from, |s|) <==> Find(s, CLOSE, from).None?
  {
    hide Newlines;
    var f := Find(s, CLOSE, from);
    if f.Some? { assert Occurs(s, CLOSE, f.value) && f.value < |s|; }
  }

  /** The verdict is what the text says about it, with no use of the search. */
  lemma VerdictSays(s: string, o: nat)
    requires Occurs(s, OPEN, o)
    ensures Says(s, o, Verdict(s, o))
  {
    hide Newlines, Occurs;
    var inside := o + |OPEN|;
    assert inside <= |s| by { OpenFits(s, o); }
    CloseFits(s, inside);
    match Find(s, CLOSE, inside)
    case None =>
    case Some(c) =>
      assert Occurs(s, CLOSE, c) && NoCloseBetween(s, inside, c);
      match Find(s, OPEN, inside)
      case None => assert NoOpenBetween(s, inside, c);
      case Some(n) =>
        assert Occurs(s, OPEN, n) && NoOpenBetween(s, inside, n);
        if n < c { assert NoCloseBetween(s, inside, n); } else { assert NoOpenBetween(s, inside, c); }
  }

  lemma OpenFits(s: string, o: nat)
    requires Occurs(s, OPEN, o)
    ensures o + |OPEN| <= |s|
  {
  }

  lemma FirstIs(s: string, m: string, from: nat, at: nat)
    requires from <= at && from <= |s| && Occurs(s, m, at) && forall k :: from <= k < at ==> !Occurs(s, m, k)
    ensures Find(s, m, from) == Some(at)
  {
    hide Occurs;
  }

  lemma OkSaysOnce(s: string, o: nat, r: Report, c: nat)
    requires Occurs(s, OPEN, o) && r.Ok? && c + |CLOSE| <= |s| && o + |OPEN| <= c && Occurs(s, CLOSE, c)
    requires NoCloseBetween(s, o + |OPEN|, c) && NoOpenBetween(s, o + |OPEN|, c)
    requires r.value.source == s[o..c + |CLOSE|] && r.value.lineOffset == Newlines(s[..o])
    ensures r == Verdict(s, o)
  {
    hide Newlines, Find, Occurs;
    FirstIs(s, CLOSE, o + |OPEN|, c);
    OpenBehind(s, o + |OPEN|, c);
  }

  lemma NestedSaysOnce(s: string, o: nat, r: Report, n: nat)
    requires Occurs(s, OPEN, o) && r.Err? && r.error.NestedOpenBeforeClose? && n <= |s| && Occurs(s, OPEN, n)
    requires o + |OPEN| <= n && NoOpenBetween(s, o + |OPEN|, n) && NoCloseBetween(s, o + |OPEN|, n)
    requires !NoCloseBetween(s, o + |OPEN|, |s|)
    requires r.error.line == Newlines(s[..o]) + 1 && r.error.nestedLine == Newlines(s[..n]) + 1
    ensures r == Verdict(s, o)
  {
    hide Newlines, Find, Occurs;
    CloseFits(s, o + |OPEN|);
    FirstIs(s, OPEN, o + |OPEN|, n);
    CloseBehind(s, o + |OPEN|, n);
  }

  /** A text says only one thing about an occurrence. */
  lemma SaysOnce(s: string, o: nat, r: Report)
    requires Occurs(s, OPEN, o) && Says(s, o, r)
    ensures r == Verdict(s, o)
  {
    hide Newlines, Find;
    var inside := o + |OPEN|;
    if r.Ok? {
      var c :| inside <= c && Occurs(s, CLOSE, c) && NoCloseBetween(s, inside, c) && NoOpenBetween(s, inside, c)
               && r.value.source == s[o..c + |CLOSE|] && r.value.lineOffset == Newlines(s[..o]);
      OkSaysOnce(s, o, r, c);
    } else if r.error.UnterminatedBlock? {
      OpenFits(s, o);
      CloseFits(s, inside);
    } else {
      var n :| inside <= n && Occurs(s, OPEN, n) && NoOpenBetween(s, inside, n) && NoCloseBetween(s, inside, n)
               && r.error.nestedLine == Newlines(s[..n]) + 1;
      NestedSaysOnce(s, o, r, n);
    }
  }

  lemma OpenBehind(s: string, inside: nat, c: nat)
    requires inside <= |s| && NoOpenBetween(s, inside, c)
    ensures Find(s, OPEN, inside).Some? ==> Find(s, OPEN, inside).value >= c
  {
    hide Occurs;
  }

  lemma CloseBehind(s: string, inside: nat, n: nat)
    requires inside <= |s| && Find(s, CLOSE, inside).Some? && Occurs(s, OPEN, n) && NoCloseBetween(s, inside, n)
    ensures n < Find(s, CLOSE, inside).value
  {
    var c := Find(s, CLOSE, inside).value;
    MarkersApart(s, n, c);
  }

  /** A block ends before the next OPEN starts, so blocks are disjoint. */
  lemma BlocksDisjoint(s: string, o: nat, next: nat)
    requires Occurs(s, OPEN, o) && Occurs(s, OPEN, next) && o < next && Verdict(s, o).Ok?
    ensures o + |Verdict(s, o).value.source| <= next
  {
    var c := Find(s, CLOSE, o + |OPEN|).value;
    OpensApart(s, o, next);
    MarkersApart(s, next, c);
  }

  lemma {:induction false} OpensSkip(s: string, from: nat, upto: nat)
    requires from <= upto <= |s| && forall k :: from <= k < upto ==> !Occurs(s, OPEN, k)
    ensures Opens(s, from) == Opens(s, upto)
    decreases upto - from
  {
    if from < upto { OpensSkip(s, from + 1, upto); }
  }

  /** The list of occurrences is the first one followed by those after it. */
  lemma OpensFind(s: string, from: nat)
    requires from <= |s|
    ensures match Find(s, OPEN, from)
            case None => Opens(s, from) == []
            case Some(o) => Opens(s, from) == [o] + Opens(s, o + |OPEN|)
  {
    match Find(s, OPEN, from)
    case None => OpensSkip(s, from, |s|);
    case Some(o) =>
      OpensSkip(s, from, o);
      forall k | o < k < o + |OPEN| ensures !Occurs(s, OPEN, k) {
        if Occurs(s, OPEN, k) { OpensApart(s, o, k); }
      }
      OpensSkip(s, o + 1, o + |OPEN|);
  }

  /** Between OPEN and its CLOSE there is no other OPEN unless one is nested, so the scan may jump past CLOSE. */
  lemma OpensAfterClose(s: string, inside: nat, c: nat)
    requires inside <= |s| && Find(s, CLOSE, inside) == Some(c)
    requires forall k :: inside <= k < c ==> !Occurs(s, OPEN, k)
    ensures c + |CLOSE| <= |s| && Opens(s, inside) == Opens(s, c + |CLOSE|)
  {
    forall k | inside <= k < c + |CLOSE| ensures !Occurs(s, OPEN, k) {
      if Occurs(s, OPEN, k) { MarkersApart(s, k, c); }
    }
    OpensSkip(s, inside, c + |CLOSE|);
  }

  lemma SubSlice(s: string, from: nat, upto: nat, i: nat, j: nat)
    requires from <= upto <= |s| && i <= j <= upto - from
    ensures s[from..upto][i..j] == s[from + i..from + j]
  {
    var a, b := s[from..upto][i..j], s[from + i..from + j];
    assert |a| == |b|;
    assert forall k :: 0 <= k < |a| ==> a[k] == b[k];
  }

  lemma OccursWithin(s: string, m: string, from: nat, upto: nat, k: nat)
    requires from <= upto <= |s|
    ensures Occurs(s[from..upto], m, k) <==> Occurs(s, m, from + k) && from + k + |m| <= upto
  {
    if from + k + |m| <= upto { SubSlice(s, from, upto, k, k + |m|); }
  }

  /** `source[from..upto].find(m)` */
  function SliceFind(s: string, m: string, from: nat, upto: nat): (r: Option<nat>)
    requires from <= upto <= |s|
    ensures r.Some? ==> from + r.value + |m| <= upto && Find(s, m, from) == Some(from + r.value)
    ensures r.None? ==> Find(s, m, from).None? || Find(s, m, from).value + |m| > upto
  {
    var r := Find(s[from..upto], m, 0);
    SliceFindAbsolute(s, m, from, upto);
    r
  }

  lemma SliceFindAbsolute(s: string, m: string, from: nat, upto: nat)
    requires from <= upto <= |s|
    ensures var r := Find(s[from..upto], m, 0);
            && (r.Some? ==> from + r.value + |m| <= upto && Find(s, m, from) == Some(from + r.value))
            && (r.None? ==> Find(s, m, from).None? || Find(s, m, from).value + |m| > upto)
  {
    hide Find, Occurs;
    var r, f := Find(s[from..upto], m, 0), Find(s, m, from);
    if f.Some? { OccursWithin(s, m, from, upto, f.value - from); }
    if r.Some? { OccursWithin(s, m, from, upto, r.value); }
  }

  /** Count of newlines before an index, as the scan computes it. */
  method CountNewlines(s: string) returns (n: nat)
    ensures n == Newlines(s)
  {
    n := 0;
    for i := 0 to |s|
      invariant n == Newlines(s[..i])
    {
      assert s[..i + 1][..i] == s[..i];
      if s[i] == '\n' { n := n + 1; }
    }
    assert s[..|s|] == s;
  }

  /** Where the scan resumes after reporting on the OPEN at `o`. */
  function Resume(s: string, o: nat): nat
    requires Occurs(s, OPEN, o) && Find(s, CLOSE, o + |OPEN|).Some?
  {
    var close := Find(s, CLOSE, o + |OPEN|).value;
    var next := Find(s, OPEN, o + |OPEN|);
    if next.Some? && next.value < close then next.value else close + |CLOSE|
  }

  lemma ScanStep(s: string, cursor: nat)
    requires cursor <= |s|
    ensures match Find(s, OPEN, cursor)
            case None => Verdicts(s, Opens(s, cursor)) == []
            case Some(o) =>
              && o + |OPEN| <= |s|
              && (Find(s, CLOSE, o + |OPEN|).None? ==> Verdicts(s, Opens(s, cursor)) == [Verdict(s, o)])
              && (Find(s, CLOSE, o + |OPEN|).Some? ==>
                    && cursor < Resume(s, o) <= |s|
                    && Verdicts(s, Opens(s, cursor)) == [Verdict(s, o)] + Verdicts(s, Opens(s, Resume(s, o))))
  {
    hide Find, Opens, Verdict;
    OpensFind(s, cursor);
    FindFits(s, OPEN, cursor);
    var f := Find(s, OPEN, cursor);
    if f.Some? {
      var inside := f.value + |OPEN|;
      VerdictKind(s, f.value);
      assert Opens(s, cursor)[1..] == Opens(s, inside);
      var close := Find(s, CLOSE, inside);
      if close.Some? { ResumeKeepsOpens(s, f.value); }
    }
  }

  lemma VerdictKind(s: string, o: nat)
    requires Occurs(s, OPEN, o)
    ensures Find(s, CLOSE, o + |OPEN|).None? <==> Verdict(s, o).Err? && Verdict(s, o).error.UnterminatedBlock?
  {
    hide Find;
  }

  lemma ResumeKeepsOpens(s: string, o: nat)
    requires Occurs(s, OPEN, o) && Find(s, CLOSE, o + |OPEN|).Some?
    ensures o < Resume(s, o) <= |s| && Opens(s, o + |OPEN|) == Opens(s, Resume(s, o))
  {
    var inside := o + |OPEN|;
    var close, next := Find(s, CLOSE, inside).value, Find(s, OPEN, inside);
    if next.Some? && next.value < close {
      OpensSkip(s, inside, next.value);
    } else {
      OpensAfterClose(s, inside, close);
    }
  }

  /** The scan reports exactly the verdicts on all occurrences of OPEN, in order. */
  method ExtractGuideBlocks(source: string) returns (results: seq<Report>)
    ensures results == Verdicts(source, Opens(source, 0))
  {
    hide Find, Verdicts, Opens, Occurs, Newlines, Verdict, Resume, SliceFind;
    results := [];
    var cursor := 0;
    while true
      invariant cursor <= |source|
      invariant Verdicts(source, Opens(source, 0)) == results + Verdicts(source, Opens(source, cursor))
      decreases |source| - cursor
    {
      ScanStep(source, cursor);
      var found := SliceFind(source, OPEN, cursor, |source|);
      if found.None? {
        FindFits(source, OPEN, cursor);
        break;
      }
      var open := cursor + found.value;
      var inside := open + |OPEN|;
      var lines := CountNewlines(source[..open]);
      var close := SliceFind(source, CLOSE, inside, |source|);
      FindFits(source, CLOSE, inside);
      if close.None? {
        NoCloseVerdict(source, open);
        results := results + [Err(UnterminatedBlock(lines + 1))];
        return;
      }
      var at := inside + close.value;
      var nested := SliceFind(source, OPEN, inside, at);
      BlockVerdict(source, open, at);
      if nested.Some? {
        var nestedLines := CountNewlines(source[..inside + nested.value]);
        results := results + [Err(NestedOpenBeforeClose(lines + 1, nestedLines + 1))];
        cursor := inside + nested.value;
      } else {
        results := results + [Ok(GuideBlock(source[open..at + |CLOSE|], lines))];
        cursor := at + |CLOSE|;
      }
    }
  }

  /** What the scan reports on an OPEN that some CLOSE follows, and where it goes on. */
  lemma BlockVerdict(s: string, o: nat, c: nat)
    requires Occurs(s, OPEN, o) && o + |OPEN| <= c && Find(s, CLOSE, o + |OPEN|) == Some(c) && c + |CLOSE| <= |s|
    ensures var nested := SliceFind(s, OPEN, o + |OPEN|, c);
            && Verdict(s, o) == (if nested.Some? then
                                   var n := o + |OPEN| + nested.value;
                                   Err(NestedOpenBeforeClose(Newlines(s[..o]) + 1, Newlines(s[..n]) + 1))
                                 else Ok(GuideBlock(s[o..c + |CLOSE|], Newlines(s[..o]))))
            && Resume(s, o) == if nested.Some? then o + |OPEN| + nested.value else c + |CLOSE|
  {
    hide Find, Occurs, Newlines, SliceFind;
    NestedIff(s, o + |OPEN|, c);
  }

  lemma NoCloseVerdict(s: string, o: nat)
    requires Occurs(s, OPEN, o) && Find(s, CLOSE, o + |OPEN|).None?
    ensures Verdict(s, o) == Err(UnterminatedBlock(Newlines(s[..o]) + 1))
  {
    hide Find, Occurs, Newlines;
  }

  lemma FindFits(s: string, m: string, from: nat)
    requires from <= |s|
    ensures Find(s, m, from).Some? ==> Find(s, m, from).value + |m| <= |s|
  {
  }

  /** Whether an OPEN fits before the CLOSE at `c` is whether the next OPEN starts before it. */
  lemma NestedIff(s: string, inside: nat, c: nat)
    requires inside <= c <= |s| && Occurs(s, CLOSE, c)
    ensures match Find(s, OPEN, inside)
            case Some(n) => n < c <==> n + |OPEN| <= c
            case None => true
  {
    match Find(s, OPEN, inside)
    case Some(n) => if n < c { MarkersApart(s, n, c); }
    case None =>
  }

  // Bundles put together from blocks

  datatype Piece = Piece(body: string, separator: string)

  function Wrap(body: string): string { OPEN + body + CLOSE }

  function Bundle(lead: string, pieces: seq<Piece>): string
    decreases |pieces|
  {
    if pieces == [] then lead else lead + (Wrap(pieces[0].body) + Bundle(pieces[0].separator, pieces[1..]))
  }

  /** The blocks of a bundle whose text starts after `lines` newlines. */
  function BundleBlocks(lead: string, pieces: seq<Piece>, lines: nat): seq<Report>
    decreases |pieces|
  {
    if pieces == [] then [] else
    var before := lines + Newlines(lead);
    [Ok(GuideBlock(Wrap(pieces[0].body), before))]
      + BundleBlocks(pieces[0].separator, pieces[1..], before + Newlines(pieces[0].body))
  }

  ghost predicate Free(s: string, m: string) { forall k :: 0 <= k ==> !Occurs(s, m, k) }

  ghost predicate WellFormedPieces(lead: string, pieces: seq<Piece>) {
    && Free(lead, OPEN)
    && forall i :: 0 <= i < |pieces| ==>
         Free(pieces[i].body, OPEN) && Free(pieces[i].body, CLOSE) && Free(pieces[i].separator, OPEN)
  }

  lemma {:induction false} NewlinesConcat(a: string, b: string)
    ensures Newlines(a + b) == Newlines(a) + Newlines(b)
    decreases |b|
  {
    if b == "" { assert a + b == a; } else {
      NewlinesConcat(a, b[..|b| - 1]);
      assert (a + b)[..|a + b| - 1] == a + b[..|b| - 1];
    }
  }

  lemma {:induction false} NewlinesNone(s: string)
    requires forall i :: 0 <= i < |s| ==> s[i] != '\n'
    ensures Newlines(s) == 0
    decreases |s|
  {
    if s != "" { NewlinesNone(s[..|s| - 1]); }
  }

  /** Two occurrences of CLOSE never overlap. */
  lemma ClosesApart(s: string, i: nat, j: nat)
    requires Occurs(s, CLOSE, i) && Occurs(s, CLOSE, j) && i < j
    ensures i + |CLOSE| <= j
  {
    if j < i + |CLOSE| {
      OverlapAgrees(s, CLOSE, i, CLOSE, j, i + 2);
    }
  }

  /** An occurrence inside a middle part of a text is one of that part. */
  lemma OccursInPart(a: string, b: string, c: string, m: string, k: nat)
    requires Occurs(a + b + c, m, k) && |a| <= k && k + |m| <= |a| + |b|
    ensures Occurs(b, m, k - |a|)
  {
    assert (a + b + c)[|a|..|a| + |b|] == b;
    OccursWithin(a + b + c, m, |a|, |a| + |b|, k - |a|);
  }

  lemma OccursHere(a: string, m: string, c: string)
    ensures Occurs(a + m + c, m, |a|)
  {
    assert (a + m + c)[|a|..|a| + |m|] == m;
  }

  lemma LeadIsOpenFree(pre: string, lead: string, tail: string, k: nat)
    requires Free(lead, OPEN) && |pre| <= k < |pre| + |lead|
    ensures !Occurs(pre + lead + (OPEN + tail), OPEN, k)
  {
    hide Occurs;
    var s := pre + lead + (OPEN + tail);
    if Occurs(s, OPEN, k) {
      assert s == (pre + lead) + OPEN + tail;
      OccursHere(pre + lead, OPEN, tail);
      OpensApart(s, k, |pre| + |lead|);
      OccursInPart(pre, lead, OPEN + tail, OPEN, k);
    }
  }

  lemma BodyIsMarkerFree(pre: string, body: string, tail: string, k: nat)
    requires Free(body, OPEN) && Free(body, CLOSE) && |pre| <= k < |pre| + |body|
    ensures var s := pre + body + (CLOSE + tail); !Occurs(s, OPEN, k) && !Occurs(s, CLOSE, k)
  {
    hide Occurs;
    var s := pre + body + (CLOSE + tail);
    assert s == (pre + body) + CLOSE + tail;
    OccursHere(pre + body, CLOSE, tail);
    if Occurs(s, CLOSE, k) {
      ClosesApart(s, k, |pre| + |body|);
      OccursInPart(pre, body, CLOSE + tail, CLOSE, k);
    }
    if Occurs(s, OPEN, k) {
      MarkersApart(s, k, |pre| + |body|);
      OccursInPart(pre, body, CLOSE + tail, OPEN, k);
    }
  }

  lemma OpenMarker(pre: string, lead: string, tail: string)
    requires Free(lead, OPEN)
    ensures var s := pre + lead + (OPEN + tail);
            Occurs(s, OPEN, |pre| + |lead|) && Find(s, OPEN, |pre|) == Some(|pre| + |lead|)
  {
    hide Find, Occurs;
    var s := pre + lead + (OPEN + tail);
    assert s == (pre + lead) + OPEN + tail;
    OccursHere(pre + lead, OPEN, tail);
    forall k | |pre| <= k < |pre| + |lead| ensures !Occurs(s, OPEN, k) { LeadIsOpenFree(pre, lead, tail, k); }
    FirstIs(s, OPEN, |pre|, |pre| + |lead|);
  }

  lemma CloseMarker(inner: string, body: string, tail: string)
    requires Free(body, OPEN) && Free(body, CLOSE)
    ensures var s := inner + body + (CLOSE + tail);
            && Find(s, CLOSE, |inner|) == Some(|inner| + |body|)
            && forall k :: |inner| <= k < |inner| + |body| ==> !Occurs(s, OPEN, k)
  {
    hide Find, Occurs;
    var s := inner + body + (CLOSE + tail);
    assert s == (inner + body) + CLOSE + tail;
    OccursHere(inner + body, CLOSE, tail);
    forall k | |inner| <= k < |inner| + |body| ensures !Occurs(s, CLOSE, k) && !Occurs(s, OPEN, k) {
      BodyIsMarkerFree(inner, body, tail, k);
    }
    FirstIs(s, CLOSE, |inner|, |inner| + |body|);
  }

  /** The next block of a bundle: where it opens and closes. */
  lemma BundleMarkers(pre: string, lead: string, body: string, tail: string)
    requires Free(lead, OPEN) && Free(body, OPEN) && Free(body, CLOSE)
    ensures var s := pre + lead + Wrap(body) + tail;
            var o := |pre| + |lead|;
            && Occurs(s, OPEN, o) && Find(s, OPEN, |pre|) == Some(o)
            && Find(s, CLOSE, o + |OPEN|) == Some(o + |OPEN| + |body|)
            && forall k :: o + |OPEN| <= k < o + |OPEN| + |body| ==> !Occurs(s, OPEN, k)
  {
    hide Find, Occurs, Free;
    var s := pre + lead + Wrap(body) + tail;
    assert s == pre + lead + (OPEN + (body + CLOSE + tail)) == (pre + lead + OPEN) + body + (CLOSE + tail);
    OpenMarker(pre, lead, body + CLOSE + tail);
    CloseMarker(pre + lead + OPEN, body, tail);
  }

  /** The next block of a bundle: what the scan says about it and where it goes on. */
  lemma BundleStep(pre: string, lead: string, body: string, tail: string)
    requires Free(lead, OPEN) && Free(body, OPEN) && Free(body, CLOSE)
    ensures var s := pre + lead + Wrap(body) + tail;
            var o := |pre| + |lead|;
            && Occurs(s, OPEN, o) && Find(s, OPEN, |pre|) == Some(o) && Find(s, CLOSE, o + |OPEN|).Some?
            && Verdict(s, o) == Ok(GuideBlock(Wrap(body), Newlines(pre + lead)))
            && Resume(s, o) == |pre + lead + Wrap(body)|
  {
    hide Find, Newlines, Occurs;
    BundleMarkers(pre, lead, body, tail);
    var s := pre + lead + Wrap(body) + tail;
    var o := |pre| + |lead|;
    assert s[o..o + |Wrap(body)|] == Wrap(body) && s[..o] == pre + lead;
  }

  lemma {:induction false} BundleVerdicts(pre: string, lead: string, pieces: seq<Piece>)
    requires WellFormedPieces(lead, pieces)
    ensures var s := pre + Bundle(lead, pieces);
            Verdicts(s, Opens(s, |pre|)) == BundleBlocks(lead, pieces, Newlines(pre))
    decreases |pieces|
  {
    hide Find, Opens, Verdicts, Verdict, Newlines, Occurs;
    var s := pre + Bundle(lead, pieces);
    ScanStep(s, |pre|);
    if pieces == [] {
      if Find(s, OPEN, |pre|).Some? {
        var k := Find(s, OPEN, |pre|).value;
        assert s == pre + lead + "";
        FindFits(s, OPEN, |pre|);
        OccursInPart(pre, lead, "", OPEN, k);
      }
    } else {
      var body, sep, rest := pieces[0].body, pieces[0].separator, pieces[1..];
      var tail := Bundle(sep, rest);
      var next := pre + lead + Wrap(body);
      assert s == next + tail;
      BundleStep(pre, lead, body, tail);
      BundleVerdicts(next, sep, rest);
      NewlinesConcat(pre + lead, Wrap(body));
      NewlinesConcat(pre, lead);
      WrapNewlines(body);
    }
  }

  lemma WrapNewlines(body: string)
    ensures Newlines(Wrap(body)) == Newlines(body)
  {
    NewlinesConcat(OPEN + body, CLOSE);
    NewlinesConcat(OPEN, body);
    NewlinesNone(OPEN);
    NewlinesNone(CLOSE);
  }

  /** Extracting from a bundle gives back exactly the blocks that were put in, with their line offsets. */
  lemma ExtractInvertsBundle(lead: string, pieces: seq<Piece>)
    requires WellFormedPieces(lead, pieces)
    ensures var s := Bundle(lead, pieces); Verdicts(s, Opens(s, 0)) == BundleBlocks(lead, pieces, 0)
  {
    assert "" + Bundle(lead, pieces) == Bundle(lead, pieces);
    BundleVerdicts("", lead, pieces);
  }
}

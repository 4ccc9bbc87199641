/**
 * Texts in which every closer finds a bracket open, whether or not the brackets and literals are closed at the end. The
 * scan for a closing bracket cuts out such texts only, and the scanners of the call parser never stop at one of their
 * closers. Every prefix of such a text is one.
 */
module StrayText {
  import opened Results
  import opened CommandParser
  import opened Brackets

  predicate NoStray(s: string, d: nat) {
    if s == "" then true
    else if IsQuote(s[0]) then SkipLength(s) >= |s| || NoStray(s[SkipLength(s)..], d)
    else if IsOpener(s[0]) then NoStray(s[1..], d + 1)
    else if IsCloser(s[0]) then d > 0 && NoStray(s[1..], d - 1)
    else NoStray(s[1..], d)
  }

  /** A literal is skipped alike in a prefix that holds it, and never ends earlier in a shorter one. */
  lemma {:induction false} SkipBodyPrefix(s: string, quote: char, j: nat)
    requires j <= |s|
    ensures if SkipBody(s, quote) <= j then SkipBody(s[..j], quote) == SkipBody(s, quote)
            else SkipBody(s[..j], quote) >= j
  {
    if j > 0 {
      if s[0] == '\\' {
        if j > 1 {
          SkipBodyPrefix(s[2..], quote, j - 2);
          assert s[..j][2..] == s[2..][..j - 2];
        }
      } else if s[0] != quote {
        SkipBodyPrefix(s[1..], quote, j - 1);
        assert s[..j][1..] == s[1..][..j - 1];
      }
    }
  }

  lemma SkipPrefix(s: string, j: nat)
    requires 0 < j <= |s|
    ensures if SkipLength(s) <= j then SkipLength(s[..j]) == SkipLength(s) else SkipLength(s[..j]) >= j
  {
    hide SkipBody;
    SkipBodyPrefix(s[1..], s[0], j - 1);
    assert s[..j][1..] == s[1..][..j - 1];
  }

  lemma {:induction false} StrayPrefix(s: string, j: nat, d: nat)
    requires NoStray(s, d) && j <= |s|
    ensures NoStray(s[..j], d)
    decreases |s|
  {
    hide SkipLength, IsQuote, IsOpener, IsCloser;
    if j > 0 {
      if IsQuote(s[0]) {
        SkipPrefix(s, j);
        var k := SkipLength(s);
        if k < j {
          StrayPrefix(s[k..], j - k, d);
          assert s[..j][k..] == s[k..][..j - k];
        }
      } else {
        assert s[..j][1..] == s[1..][..j - 1];
        if IsOpener(s[0]) { StrayPrefix(s[1..], j - 1, d + 1); }
        else if IsCloser(s[0]) { StrayPrefix(s[1..], j - 1, d - 1); }
        else { StrayPrefix(s[1..], j - 1, d); }
      }
    }
  }

  lemma Unstray(c: char, s: string, d: nat)
    requires !IsQuote(c)
    ensures IsOpener(c) ==> NoStray([c] + s, d) == NoStray(s, d + 1)
    ensures !IsOpener(c) && IsCloser(c) && d > 0 ==> NoStray([c] + s, d) == NoStray(s, d - 1)
    ensures !IsOpener(c) && !IsCloser(c) ==> NoStray([c] + s, d) == NoStray(s, d)
  {
    assert ([c] + s)[1..] == s;
  }

  /** What a scan for a closing bracket has before its end, and before the last character if there is no end. */
  lemma {:induction false} CloseCuts(s: string, n: nat)
    requires n >= 1 && s != ""
    ensures 0 < CloseLength(s, n) <= |s| && NoStray(s[..CloseLength(s, n) - 1], n - 1)
    decreases |s|
  {
    hide SkipLength, NoStray, CloseLength, IsQuote, IsOpener, IsCloser;
    CloseLengthStep(s, n);
    var k := CloseLength(s, n);
    var j := SkipLength(s);
    if IsQuote(s[0]) {
      if j < |s| { CloseCuts(s[j..], n); }
      LiteralThen(s, k, n - 1);
    } else if !IsOpener(s[0]) && IsCloser(s[0]) && n == 1 {
      NothingStray(s, 0);
    } else if |s| == 1 {
      NothingStray(s, n - 1);
      CloseLengthEmpty(n + 1);
      CloseLengthEmpty(n - 1);
      CloseLengthEmpty(n);
      assert s[1..] == "";
    } else {
      CloseCuts(s[1..], if IsOpener(s[0]) then n + 1 else if IsCloser(s[0]) then n - 1 else n);
      assert s[..k - 1] == [s[0]] + s[1..][..k - 2];
      Unstray(s[0], s[1..][..k - 2], n - 1);
    }
  }

  lemma NothingStray(s: string, d: nat)
    ensures NoStray(s[..0], d)
  {
  }

  /** A literal and then a text without stray closers. */
  lemma LiteralThen(s: string, k: nat, d: nat)
    requires s != "" && IsQuote(s[0]) && 0 < k <= |s|
    requires SkipLength(s) >= |s| || (SkipLength(s) < k && NoStray(s[SkipLength(s)..][..k - SkipLength(s) - 1], d))
    ensures NoStray(s[..k - 1], d)
  {
    hide SkipLength, IsOpener, IsCloser;
    var j := SkipLength(s);
    if k > 1 {
      SkipPrefix(s, k - 1);
      if j < k - 1 { assert s[..k - 1][j..] == s[j..][..k - j - 1]; }
    }
  }

  lemma {:induction false} CloseLeaves(s: string, n: nat)
    requires n >= 1 && NoStray(s, n)
    ensures CloseLength(s, n) <= |s| && NoStray(s[CloseLength(s, n)..], 0)
    decreases |s|
  {
    hide SkipLength, CloseLength, IsQuote, IsOpener, IsCloser;
    if s == "" {
      CloseLengthEmpty(n);
    } else {
      CloseLengthStep(s, n);
      var k := CloseLength(s, n);
      var j := SkipLength(s);
      if IsQuote(s[0]) {
        if j < |s| {
          CloseLeaves(s[j..], n);
          assert s[k..] == s[j..][k - j..];
        }
      } else if !IsOpener(s[0]) && IsCloser(s[0]) && n == 1 {
      } else {
        CloseLeaves(s[1..], if IsOpener(s[0]) then n + 1 else if IsCloser(s[0]) then n - 1 else n);
        assert s[k..] == s[1..][k - 1..];
      }
    }
  }

  lemma {:induction false} BareLeaves(s: string, d: nat)
    requires NoStray(s, d)
    ensures NoStray(Drop(s, BareLength(s, d)), 0)
    decreases |s|
  {
    hide SkipLength, BareLength, IsQuote, IsOpener, IsCloser;
    if s == "" {
    } else {
      BareLengthStep(s, d);
      var k := BareLength(s, d);
      var j := SkipLength(s);
      if IsQuote(s[0]) {
        if j < |s| {
          BareLeaves(s[j..], d);
          assert Drop(s, k) == Drop(s[j..], k - j);
        }
      } else if !IsOpener(s[0]) && !IsCloser(s[0]) && s[0] == ',' && d == 0 {
        assert Drop(s, 0) == s;
      } else {
        BareLeaves(s[1..], if IsOpener(s[0]) then d + 1 else if IsCloser(s[0]) then d - 1 else d);
        assert Drop(s, k) == Drop(s[1..], k - 1);
      }
    }
  }

  lemma {:induction false} StrayTrimLeft(s: string)
    requires NoStray(s, 0)
    ensures NoStray(TrimLeft(s), 0)
  {
    if s != "" && IsSpace(s[0]) {
      StrayTrimLeft(s[1..]);
    }
  }

  lemma {:induction false} StrayTrimRight(s: string)
    requires NoStray(s, 0)
    ensures NoStray(TrimRight(s), 0)
  {
    hide NoStray, IsSpace;
    if s != "" && IsSpace(s[|s| - 1]) {
      StrayPrefix(s, |s| - 1, 0);
      StrayTrimRight(s[..|s| - 1]);
    }
  }

  lemma StrayTrim(s: string)
    requires NoStray(s, 0)
    ensures NoStray(Trim(s), 0)
  {
    hide NoStray;
    StrayTrimLeft(s);
    StrayTrimRight(TrimLeft(s));
  }
}

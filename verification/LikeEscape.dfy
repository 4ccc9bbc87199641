/** LIKE patterns of the federated search: escaped text matches literally, and the three ranks nest. */
module LikeEscape {

  const ESCAPE: char := '\\'

  predicate IsMeta(c: char) { c == '\\' || c == '%' || c == '_' }

  function EscapeLike(term: string): string {
    if term == "" then ""
    else (if IsMeta(term[0]) then [ESCAPE, term[0]] else [term[0]]) + EscapeLike(term[1..])
  }

  lemma {:induction false} EscapeLikeSnoc(term: string, c: char)
    ensures EscapeLike(term + [c]) == EscapeLike(term) + EscapeLike([c])
    decreases |term|
  {
    assert [c][1..] == "";
    if term == "" {
      assert term + [c] == [c];
    } else {
      EscapeLikeSnoc(term[1..], c);
      assert (term + [c])[1..] == term[1..] + [c];
    }
  }

  method Escape(term: string) returns (out: string)
    ensures out == EscapeLike(term)
  {
    out := "";
    for i := 0 to |term|
      invariant out == EscapeLike(term[..i])
    {
      EscapeLikeSnoc(term[..i], term[i]);
      assert term[..i + 1] == term[..i] + [term[i]];
      var ch := term[i];
      if IsMeta(ch) { out := out + [ESCAPE]; }
      out := out + [ch];
      assert [ch][1..] == "";
    }
    assert term[..|term|] == term;
  }

  /**
   * LIKE with escape character `\` (section 8.5 of SQL-92), comparing characters up to one case folding.
   * An escape character that ends the pattern matches nothing.
   */
  predicate Like(p: string, s: string, fold: char -> char)
    decreases |p|, |s|
  {
    if p == "" then s == ""
    else if p[0] == '%' then Like(p[1..], s, fold) || (s != "" && Like(p, s[1..], fold))
    else if p[0] == '_' then s != "" && Like(p[1..], s[1..], fold)
    else if p[0] == ESCAPE then
      |p| > 1 && s != "" && fold(p[1]) == fold(s[0]) && Like(p[2..], s[1..], fold)
    else s != "" && fold(p[0]) == fold(s[0]) && Like(p[1..], s[1..], fold)
  }

  /** Equal up to folding; `lower(a) = lower(b)` in the query. */
  predicate Same(a: string, b: string, fold: char -> char) {
    |a| == |b| && forall i :: 0 <= i < |a| ==> fold(a[i]) == fold(b[i])
  }

  predicate HasPrefix(s: string, t: string, fold: char -> char) { |t| <= |s| && Same(t, s[..|t|], fold) }

  ghost predicate Contains(s: string, t: string, fold: char -> char) {
    exists k :: 0 <= k <= |s| && HasPrefix(s[k..], t, fold)
  }

  /** An escaped text at the head of a pattern matches exactly that text. */
  lemma {:induction false} EscapedHead(t: string, p: string, s: string, fold: char -> char)
    ensures Like(EscapeLike(t) + p, s, fold) <==> HasPrefix(s, t, fold) && Like(p, s[|t|..], fold)
    decreases |t|
  {
    var pattern := EscapeLike(t) + p;
    if t == "" {
      assert pattern == p && s[0..] == s;
    } else {
      var head := if IsMeta(t[0]) then 2 else 1;
      assert pattern[head..] == EscapeLike(t[1..]) + p;
      assert pattern[0] == if IsMeta(t[0]) then ESCAPE else t[0];
      if s != "" {
        EscapedHead(t[1..], p, s[1..], fold);
        if |t| <= |s| {
          assert s[1..][|t[1..]|..] == s[|t|..];
          PrefixStep(s, t, fold);
        }
      }
    }
  }

  lemma PrefixStep(s: string, t: string, fold: char -> char)
    requires s != "" && t != ""
    ensures HasPrefix(s, t, fold) <==> fold(t[0]) == fold(s[0]) && HasPrefix(s[1..], t[1..], fold)
  {
    if |t| <= |s| {
      assert forall i :: 0 < i < |t| ==> s[..|t|][i] == s[1..][..|t[1..]|][i - 1] && t[i] == t[1..][i - 1];
      if fold(t[0]) == fold(s[0]) && HasPrefix(s[1..], t[1..], fold) {
        forall i | 0 <= i < |t| ensures fold(t[i]) == fold(s[..|t|][i]) {
          if i > 0 { assert fold(t[1..][i - 1]) == fold(s[1..][..|t[1..]|][i - 1]); }
        }
      }
      if HasPrefix(s, t, fold) {
        forall i | 0 <= i < |t[1..]| ensures fold(t[1..][i]) == fold(s[1..][..|t[1..]|][i]) {
          assert fold(t[i + 1]) == fold(s[..|t|][i + 1]);
        }
      }
    }
  }

  lemma {:induction false} PercentMatchesAll(s: string, fold: char -> char)
    ensures Like("%", s, fold)
    decreases |s|
  {
    assert "%"[1..] == "";
    if s != "" { PercentMatchesAll(s[1..], fold); }
  }

  lemma {:induction false} PercentHead(p: string, s: string, fold: char -> char)
    ensures Like("%" + p, s, fold) <==> exists k :: 0 <= k <= |s| && Like(p, s[k..], fold)
    decreases |s|
  {
    var pattern := "%" + p;
    assert pattern[1..] == p && s[0..] == s;
    if s != "" {
      PercentHead(p, s[1..], fold);
      if Like(pattern, s[1..], fold) {
        var k :| 0 <= k <= |s[1..]| && Like(p, s[1..][k..], fold);
        assert s[1..][k..] == s[k + 1..];
      }
      if exists k :: 0 <= k <= |s| && Like(p, s[k..], fold) {
        var k :| 0 <= k <= |s| && Like(p, s[k..], fold);
        if k > 0 { assert s[1..][k - 1..] == s[k..]; }
      }
    }
  }

  /** The escaped term matches exactly the names equal to the term. */
  lemma ExactPattern(t: string, s: string, fold: char -> char)
    ensures Like(EscapeLike(t), s, fold) <==> Same(t, s, fold)
  {
    EscapedHead(t, "", s, fold);
    assert EscapeLike(t) + "" == EscapeLike(t);
    if |t| == |s| { assert s[..|t|] == s; }
  }

  /** `{escaped}%` matches exactly the names that start with the term. */
  lemma PrefixPattern(t: string, s: string, fold: char -> char)
    ensures Like(EscapeLike(t) + "%", s, fold) <==> HasPrefix(s, t, fold)
  {
    EscapedHead(t, "%", s, fold);
    if |t| <= |s| { PercentMatchesAll(s[|t|..], fold); }
  }

  /** `%{escaped}%` matches exactly the names that contain the term. */
  lemma AnywherePattern(t: string, s: string, fold: char -> char)
    ensures Like("%" + EscapeLike(t) + "%", s, fold) <==> Contains(s, t, fold)
  {
    assert "%" + EscapeLike(t) + "%" == "%" + (EscapeLike(t) + "%");
    PercentHead(EscapeLike(t) + "%", s, fold);
    forall k | 0 <= k <= |s| ensures Like(EscapeLike(t) + "%", s[k..], fold) <==> HasPrefix(s[k..], t, fold) {
      PrefixPattern(t, s[k..], fold);
    }
  }

  /** The rank the query computes for a name, 0 when the WHERE clause drops it. */
  function Rank(name: string, term: string, fold: char -> char): nat {
    var escaped := EscapeLike(term);
    if !Like("%" + escaped + "%", name, fold) then 0
    else if Same(name, term, fold) then 3
    else if Like(escaped + "%", name, fold) then 2
    else 1
  }

  /** The ranks are exact, proper prefix and proper substring matches, and nothing else is returned. */
  lemma RankMeaning(name: string, term: string, fold: char -> char)
    ensures Rank(name, term, fold) == 3 <==> Same(term, name, fold)
    ensures Rank(name, term, fold) >= 2 <==> HasPrefix(name, term, fold)
    ensures Rank(name, term, fold) >= 1 <==> Contains(name, term, fold)
  {
    AnywherePattern(term, name, fold);
    PrefixPattern(term, name, fold);
    if Same(term, name, fold) { assert name[..|term|] == name; }
    if HasPrefix(name, term, fold) { assert name[0..] == name; }
  }
}

/**
 * The parts of Rust's `char` and `str` that the modelled code relies on: white space, ASCII classes and trimming.
 * Characters are code points; the white space is that of the Unicode property.
 */
module RustText {

  /** `char::is_whitespace`: the Unicode White_Space property. */
  predicate IsWhitespace(c: char) {
    var n := c as int;
    || 0x9 <= n <= 0xD || n == 0x20 || n == 0x85 || n == 0xA0 || n == 0x1680
    || 0x2000 <= n <= 0x200A || n == 0x2028 || n == 0x2029 || n == 0x202F || n == 0x205F || n == 0x3000
  }

  predicate IsDigit(c: char) { '0' <= c <= '9' }

  predicate IsAlpha(c: char) { 'a' <= c <= 'z' || 'A' <= c <= 'Z' }

  /** `str::trim_start` */
  function TrimStart(s: string): string {
    if s != "" && IsWhitespace(s[0]) then TrimStart(s[1..]) else s
  }

  /** `str::trim_end` */
  function TrimEnd(s: string): string {
    if s != "" && IsWhitespace(s[|s| - 1]) then TrimEnd(s[..|s| - 1]) else s
  }

  /** `str::trim` */
  function Trim(s: string): string { TrimEnd(TrimStart(s)) }

  lemma TrimKeepsSolid(s: string)
    requires s != "" && !IsWhitespace(s[0]) && !IsWhitespace(s[|s| - 1])
    ensures Trim(s) == s
  {
  }

  predicate AllWhite(s: string) { forall k :: 0 <= k < |s| ==> IsWhitespace(s[k]) }

  /** `trim_start` drops the white space in front and nothing else. */
  lemma {:induction false} TrimStartIs(s: string) returns (k: nat)
    ensures k <= |s| && TrimStart(s) == s[k..] && AllWhite(s[..k]) && (k < |s| ==> !IsWhitespace(s[k]))
    decreases |s|
  {
    hide IsWhitespace;
    k := 0;
    if s != "" && IsWhitespace(s[0]) {
      var n := TrimStartIs(s[1..]);
      k := n + 1;
      assert s[1..][n..] == s[k..] && s[..k] == [s[0]] + s[1..][..n];
    }
  }

  lemma {:induction false} TrimEndIs(s: string) returns (k: nat)
    ensures k <= |s| && TrimEnd(s) == s[..k] && AllWhite(s[k..]) && (k > 0 ==> !IsWhitespace(s[k - 1]))
    decreases |s|
  {
    hide IsWhitespace;
    k := |s|;
    if s != "" && IsWhitespace(s[|s| - 1]) {
      k := TrimEndIs(s[..|s| - 1]);
      assert s[..|s| - 1][..k] == s[..k] && s[k..] == s[..|s| - 1][k..] + [s[|s| - 1]];
    }
  }

  /** `trim` keeps what is left between the white space in front and behind. */
  lemma TrimIs(s: string) returns (i: nat, j: nat)
    ensures i <= j <= |s| && Trim(s) == s[i..j] && AllWhite(s[..i]) && AllWhite(s[j..])
    ensures i < j ==> !IsWhitespace(s[i]) && !IsWhitespace(s[j - 1])
  {
    hide IsWhitespace;
    i := TrimStartIs(s);
    var n := TrimEndIs(s[i..]);
    j := i + n;
    assert s[i..][..n] == s[i..j] && s[i..][n..] == s[j..];
  }

  lemma TrimNothingIff(s: string)
    ensures Trim(s) == "" <==> AllWhite(s)
  {
    hide IsWhitespace;
    var i, j := TrimIs(s);
    if i == j { assert s == s[..i] + s[j..]; }
  }
}

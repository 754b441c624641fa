/**
  String helpers the page script relies on: the whitespace class shared by
  `String.prototype.trim` and the regular-expression escape `\s`, `trim`
  itself, and the `startsWith` / `includes` tests.
 */
module Text {

  /** One character class for both `trim` and `\s`: the ECMAScript
      WhiteSpace and LineTerminator code points. */
  predicate IsWhitespace(c: char) {
    || c == '\t' || c == '\n' || c == '\U{000B}' || c == '\U{000C}' || c == '\r'
    || c == ' ' || c == '\U{00A0}' || c == '\U{1680}'
    || ('\U{2000}' <= c <= '\U{200A}')
    || c == '\U{2028}' || c == '\U{2029}' || c == '\U{202F}' || c == '\U{205F}'
    || c == '\U{3000}' || c == '\U{FEFF}'
  }

  predicate AllWhitespace(s: string) {
    forall i :: 0 <= i < |s| ==> IsWhitespace(s[i])
  }

  /** Neither end of `t` is whitespace (vacuously true of the empty string). */
  predicate IsTrimmed(t: string) {
    t == [] || (!IsWhitespace(t[0]) && !IsWhitespace(t[|t| - 1]))
  }

  /** `s[i..j]` is what is left of `s` once whitespace is stripped from both ends. */
  predicate IsTrimSpan(s: string, i: nat, j: nat) {
    && i <= j <= |s|
    && AllWhitespace(s[..i])
    && AllWhitespace(s[j..])
    && IsTrimmed(s[i..j])
  }

  /** Number of whitespace characters at the start of `s`. */
  function LeadingWhitespace(s: string): (n: nat)
    ensures n <= |s|
    ensures AllWhitespace(s[..n])
    ensures n < |s| ==> !IsWhitespace(s[n])
  {
    if |s| > 0 && IsWhitespace(s[0]) then
      var m := LeadingWhitespace(s[1..]);
      assert s[..1 + m] == [s[0]] + s[1..][..m];
      1 + m
    else
      0
  }

  /** Number of whitespace characters at the end of `s`. */
  function TrailingWhitespace(s: string): (n: nat)
    ensures n <= |s|
    ensures AllWhitespace(s[|s| - n..])
    ensures n < |s| ==> !IsWhitespace(s[|s| - n - 1])
  {
    if |s| > 0 && IsWhitespace(s[|s| - 1]) then
      var t := s[..|s| - 1];
      var m := TrailingWhitespace(t);
      assert t[|t| - m..] == s[|s| - 1 - m..|s| - 1];
      assert s[|s| - (1 + m)..] == t[|t| - m..] + [s[|s| - 1]];
      assert m < |t| ==> t[|t| - m - 1] == s[|s| - (1 + m) - 1];
      1 + m
    else
      0
  }

  /** A non-whitespace character lies at or after the end of a whitespace prefix. */
  lemma AfterWhitespacePrefix(s: string, n: nat, k: nat)
    requires n <= |s| && AllWhitespace(s[..n])
    requires k < |s| && !IsWhitespace(s[k])
    ensures n <= k
  {
    assert forall m :: 0 <= m < n ==> s[..n][m] == s[m];
  }

  /** A non-whitespace character lies before the start of a whitespace suffix. */
  lemma BeforeWhitespaceSuffix(s: string, n: nat, k: nat)
    requires n <= |s| && AllWhitespace(s[n..])
    requires k < |s| && !IsWhitespace(s[k])
    ensures k < n
  {
    assert forall m :: n <= m < |s| ==> s[n..][m - n] == s[m];
  }

  /** The bounds of the trimmed part of `s`. */
  function TrimBounds(s: string): (b: (nat, nat))
    ensures IsTrimSpan(s, b.0, b.1)
  {
    var i := LeadingWhitespace(s);
    if i == |s| then
      (i, i)
    else
      var n := TrailingWhitespace(s);
      BeforeWhitespaceSuffix(s, |s| - n, i);
      (i, |s| - n)
  }

  /** `String.prototype.trim`. */
  function Trim(s: string): (t: string)
    ensures IsTrimmed(t)
    ensures |t| <= |s|
    ensures t == [] <==> AllWhitespace(s)
  {
    var b := TrimBounds(s);
    if b.0 == b.1 then
      assert AllWhitespace(s) by {
        forall k | 0 <= k < |s| ensures IsWhitespace(s[k]) {
          if k < b.0 {
            assert s[..b.0][k] == s[k];
          } else {
            assert s[b.1..][k - b.1] == s[k];
          }
        }
      }
      []
    else
      assert !IsWhitespace(s[b.0]) by { assert s[b.0..b.1][0] == s[b.0]; }
      s[b.0..b.1]
  }

  /** Any decomposition of `s` into whitespace, a trimmed middle and whitespace
      has `Trim(s)` as its middle: the trimmed text is unique. */
  lemma TrimUnique(s: string, i: nat, j: nat)
    requires IsTrimSpan(s, i, j)
    ensures Trim(s) == s[i..j]
  {
    var b := TrimBounds(s);
    SpanUnique(s, i, j, b.0, b.1);
  }

  lemma SpanUnique(s: string, i: nat, j: nat, i': nat, j': nat)
    requires IsTrimSpan(s, i, j) && IsTrimSpan(s, i', j')
    ensures s[i..j] == s[i'..j']
  {
    if i < j { MiddleWithin(s, i', j', i, j); }
    if i' < j' { MiddleWithin(s, i, j, i', j'); }
  }

  /** A non-empty trimmed middle lies inside the middle of every other span. */
  lemma MiddleWithin(s: string, i: nat, j: nat, i': nat, j': nat)
    requires IsTrimSpan(s, i, j) && IsTrimSpan(s, i', j') && i' < j'
    ensures i <= i' && j' <= j
  {
    assert s[i'..j'][0] == s[i'] && s[i'..j'][j' - i' - 1] == s[j' - 1];
    AfterWhitespacePrefix(s, i, i');
    BeforeWhitespaceSuffix(s, j, j' - 1);
  }

  /** Whitespace added around a value never changes its trimmed form. */
  lemma TrimIgnoresPadding(pre: string, s: string, post: string)
    requires AllWhitespace(pre) && AllWhitespace(post)
    ensures Trim(pre + s + post) == Trim(s)
  {
    var b := TrimBounds(s);
    var t := pre + s + post;
    var i, j := |pre| + b.0, |pre| + b.1;
    assert t[..i] == pre + s[..b.0];
    assert t[j..] == s[b.1..] + post;
    assert t[i..j] == s[b.0..b.1];
    TrimUnique(t, i, j);
    TrimUnique(s, b.0, b.1);
  }

  /** Trimming twice is trimming once. */
  lemma TrimIdempotent(s: string)
    ensures Trim(Trim(s)) == Trim(s)
  {
    var t := Trim(s);
    assert t[..0] == [] && t[|t|..] == [] && t[0..|t|] == t;
    TrimUnique(t, 0, |t|);
  }

  predicate StartsWith(s: string, prefix: string) {
    |prefix| <= |s| && s[..|prefix|] == prefix
  }

  /** `String.prototype.includes`. */
  predicate Contains(s: string, needle: string) {
    exists i | 0 <= i <= |s| :: StartsWith(s[i..], needle)
  }
}

/**
  The contact form's email test, the regular expression
  `^[^\s@]+@[^\s@]+\.[^\s@]+$`, in two forms: a structural predicate that
  can be computed directly, and the shape of the pattern itself,
  `L "@" D1 "." D2`. The two are proved to accept the same strings.
 */
module EmailPattern {
  import opened Text

  /** The character class `[^\s@]`. */
  predicate IsAddressChar(c: char) {
    !IsWhitespace(c) && c != '@'
  }

  /** `[^\s@]+`: a non-empty run of address characters. */
  predicate IsRun(s: string) {
    |s| > 0 && forall i :: 0 <= i < |s| ==> IsAddressChar(s[i])
  }

  /** The anchored pattern, read off the regular expression piece by piece. */
  ghost predicate MatchesPattern(e: string) {
    exists l, d1, d2 :: IsRun(l) && IsRun(d1) && IsRun(d2) && e == l + "@" + d1 + "." + d2
  }

  /** Position of the first `c` in `s`. */
  function IndexOf(s: string, c: char): (k: nat)
    requires c in s
    ensures k < |s| && s[k] == c
    ensures c !in s[..k]
  {
    if s[0] == c then 0
    else
      var k := 1 + IndexOf(s[1..], c);
      assert s[..k] == [s[0]] + s[1..][..k - 1];
      k
  }

  /** The domain has a `.` that is neither its first nor its last character. */
  predicate HasInnerDot(d: string) {
    exists p :: 0 < p < |d| - 1 && d[p] == '.'
  }

  predicate NoWhitespace(s: string) {
    forall i :: 0 <= i < |s| ==> !IsWhitespace(s[i])
  }

  /** Structural reading of the email test: no whitespace, exactly one `@`,
      something before it, and an inner `.` in the domain after it. */
  predicate ValidEmail(e: string) {
    && NoWhitespace(e)
    && multiset(e)['@'] == 1
    && var k := IndexOf(e, '@');
       0 < k && HasInnerDot(e[k + 1..])
  }

  lemma NoWhitespaceConcat(a: string, b: string)
    ensures NoWhitespace(a + b) <==> NoWhitespace(a) && NoWhitespace(b)
  {
    assert forall i :: 0 <= i < |a| ==> (a + b)[i] == a[i];
    assert forall i :: 0 <= i < |b| ==> (a + b)[|a| + i] == b[i];
  }

  lemma RunHasNoWhitespace(s: string)
    requires IsRun(s)
    ensures NoWhitespace(s) && '@' !in s && multiset(s)['@'] == 0
  {
  }

  /** A first occurrence is the only candidate for `IndexOf`. */
  lemma IndexOfFirst(s: string, c: char, k: nat)
    requires k < |s| && s[k] == c && c !in s[..k]
    ensures IndexOf(s, c) == k
  {
    var r := IndexOf(s, c);
    assert forall m :: 0 <= m < k ==> s[..k][m] == s[m];
    assert forall m :: 0 <= m < r ==> s[..r][m] == s[m];
  }

  /** A string built from the pattern's pieces passes the structural test. */
  lemma ValidFromParts(l: string, d1: string, d2: string)
    requires IsRun(l) && IsRun(d1) && IsRun(d2)
    ensures ValidEmail(l + "@" + d1 + "." + d2)
  {
    var d := d1 + "." + d2;
    var e := l + "@" + d;
    assert e == l + "@" + d1 + "." + d2;
    RunHasNoWhitespace(l);
    RunHasNoWhitespace(d1);
    RunHasNoWhitespace(d2);
    NoWhitespaceConcat(d1, ".");
    NoWhitespaceConcat(d1 + ".", d2);
    NoWhitespaceConcat(l, "@");
    NoWhitespaceConcat(l + "@", d);
    assert multiset(e) == multiset(l) + multiset{'@'} + multiset(d1) + multiset{'.'} + multiset(d2);
    assert e[..|l|] == l;
    IndexOfFirst(e, '@', |l|);
    assert e[|l| + 1..] == d;
    assert d[|d1|] == '.';
  }

  /** After the only `@` there is no other. */
  lemma NoSecondAt(e: string, k: nat)
    requires k < |e| && e[k] == '@' && multiset(e)['@'] == 1
    ensures '@' !in e[k + 1..]
  {
    assert e == e[..k] + [e[k]] + e[k + 1..];
    assert multiset(e) == multiset(e[..k]) + multiset{'@'} + multiset(e[k + 1..]);
  }

  /** A run made of characters of a whitespace-free, `@`-free stretch. */
  lemma SliceIsRun(e: string, i: nat, j: nat)
    requires i < j <= |e| && NoWhitespace(e) && '@' !in e[i..j]
    ensures IsRun(e[i..j])
  {
    assert forall m :: 0 <= m < j - i ==> e[i..j][m] == e[i + m];
  }

  /** A string passing the structural test splits into the pattern's pieces. */
  lemma PartsFromValid(e: string) returns (l: string, d1: string, d2: string)
    requires ValidEmail(e)
    ensures IsRun(l) && IsRun(d1) && IsRun(d2)
    ensures e == l + "@" + d1 + "." + d2
  {
    var k := IndexOf(e, '@');
    var d := e[k + 1..];
    var p :| 0 < p < |d| - 1 && d[p] == '.';
    l, d1, d2 := e[..k], d[..p], d[p + 1..];
    LocalPartIsRun(e, k);
    DomainPartsAreRuns(e, k, p);
    Reassemble(e, k, p);
  }

  lemma Reassemble(e: string, k: nat, p: nat)
    requires k < |e| && e[k] == '@'
    requires 0 < p < |e[k + 1..]| - 1 && e[k + 1..][p] == '.'
    ensures e == e[..k] + "@" + e[k + 1..][..p] + "." + e[k + 1..][p + 1..]
  {
    var d := e[k + 1..];
    assert d == d[..p] + "." + d[p + 1..];
    assert e == e[..k] + [e[k]] + d;
  }

  lemma LocalPartIsRun(e: string, k: nat)
    requires 0 < k < |e| && NoWhitespace(e) && '@' !in e[..k]
    ensures IsRun(e[..k])
  {
    assert e[..k] == e[0..k];
    SliceIsRun(e, 0, k);
  }

  lemma DomainPartsAreRuns(e: string, k: nat, p: nat)
    requires k < |e| && e[k] == '@' && multiset(e)['@'] == 1 && NoWhitespace(e)
    requires 0 < p < |e[k + 1..]| - 1
    ensures IsRun(e[k + 1..][..p]) && IsRun(e[k + 1..][p + 1..])
  {
    var d := e[k + 1..];
    NoSecondAt(e, k);
    assert forall m :: 0 <= m < |d| ==> d[m] == e[k + 1 + m];
    assert d[..p] == e[k + 1..k + 1 + p];
    assert forall m :: 0 <= m < p ==> d[..p][m] == d[m];
    SliceIsRun(e, k + 1, k + 1 + p);
    assert d[p + 1..] == e[k + 2 + p..|e|];
    SliceIsRun(e, k + 2 + p, |e|);
  }

  /** The structural predicate accepts exactly the strings the pattern matches. */
  lemma ValidEmailIffPattern(e: string)
    ensures ValidEmail(e) <==> MatchesPattern(e)
  {
    if ValidEmail(e) {
      var l, d1, d2 := PartsFromValid(e);
    }
    if MatchesPattern(e) {
      var l, d1, d2 :| IsRun(l) && IsRun(d1) && IsRun(d2) && e == l + "@" + d1 + "." + d2;
      ValidFromParts(l, d1, d2);
    }
  }

  /** The regular-expression test `.test(email)`, computed structurally. */
  function EmailTest(e: string): (ok: bool)
    ensures ok <==> MatchesPattern(e)
  {
    ValidEmailIffPattern(e);
    ValidEmail(e)
  }

  /** The pattern needs at least five characters. */
  lemma ShortIsRejected(e: string)
    requires |e| < 5
    ensures !MatchesPattern(e)
  {
    forall l, d1, d2 | IsRun(l) && IsRun(d1) && IsRun(d2)
      ensures e != l + "@" + d1 + "." + d2
    {
      assert |l + "@" + d1 + "." + d2| >= 5;
    }
  }

  /** Without an `@` nothing matches. */
  lemma MissingAtIsRejected(e: string)
    requires '@' !in e
    ensures !MatchesPattern(e)
  {
    forall l, d1, d2 | IsRun(l) && IsRun(d1) && IsRun(d2)
      ensures e != l + "@" + d1 + "." + d2
    {
      assert (l + "@" + d1 + "." + d2)[|l|] == '@';
    }
  }

  /** `a@b` is rejected: too short to hold a dotted domain. */
  lemma RejectsDomainWithoutDot()
    ensures !MatchesPattern("a@b")
  {
    ShortIsRejected("a@b");
  }

  /** `noatsign.com` is rejected: it has no `@`. */
  lemma RejectsMissingAt()
    ensures !MatchesPattern("noatsign.com")
  {
    assert forall i :: 0 <= i < |"noatsign.com"| ==> "noatsign.com"[i] != '@';
    MissingAtIsRejected("noatsign.com");
  }

  /** `jane@example.com` is accepted. */
  lemma AcceptsSampleAddress()
    ensures MatchesPattern("jane@example.com")
  {
    assert IsRun("jane") && IsRun("example") && IsRun("com");
    assert "jane@example.com" == "jane" + "@" + "example" + "." + "com";
  }
}

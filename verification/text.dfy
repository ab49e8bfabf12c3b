/** String helpers the converter relies on: the line-break collapse pandas
    performs on every extracted cell, and Python's ordering of `str` values. */
module Text {

  /** One character after line breaks are replaced by spaces (app.py:92). */
  function Unbreak(c: char): char {
    if c == '\n' then ' ' else c
  }

  /** `s` with every line break replaced by a single space (app.py:89, 92). */
  function CollapseBreaks(s: string): (r: string)
    ensures |r| == |s|
    ensures '\n' !in r
    ensures forall i :: 0 <= i < |s| && s[i] != '\n' ==> r[i] == s[i]
    ensures forall i :: 0 <= i < |s| && s[i] == '\n' ==> r[i] == ' '
  {
    if s == [] then [] else [Unbreak(s[0])] + CollapseBreaks(s[1..])
  }

  /** A string without line breaks is left as it is; in particular the
      collapse is idempotent. */
  lemma CollapseBreaksFixesUnbroken(s: string)
    ensures '\n' !in s ==> CollapseBreaks(s) == s
    ensures CollapseBreaks(CollapseBreaks(s)) == CollapseBreaks(s)
  {
    var r := CollapseBreaks(s);
    if '\n' !in s {
      assert forall i :: 0 <= i < |s| ==> r[i] == s[i];
    }
    var rr := CollapseBreaks(r);
    assert forall i :: 0 <= i < |r| ==> rr[i] == r[i];
  }

  /** Python's `<` on `str`: code-point lexicographic order, in which a proper
      prefix comes before its extensions. `sorted` uses it (app.py:105). */
  predicate Less(a: string, b: string)
    decreases |a|
  {
    if a == [] then b != []
    else if b == [] then false
    else if a[0] != b[0] then a[0] < b[0]
    else Less(a[1..], b[1..])
  }

  /** The same order stated without recursion: `a` is a proper prefix of `b`,
      or the first position where they differ holds a smaller character in `a`. */
  ghost predicate ProperPrefix(a: string, b: string) {
    |a| < |b| && a == b[..|a|]
  }

  ghost predicate DiffersBelow(a: string, b: string) {
    exists k :: 0 <= k < |a| && k < |b| && a[..k] == b[..k] && a[k] < b[k]
  }

  lemma ProperPrefixCons(a: string, b: string)
    requires a != [] && b != [] && a[0] == b[0]
    ensures ProperPrefix(a, b) <==> ProperPrefix(a[1..], b[1..])
  {
    if ProperPrefix(a, b) {
      assert a[1..] == b[..|a|][1..];
      assert b[..|a|][1..] == b[1..][..|a| - 1];
    }
    if ProperPrefix(a[1..], b[1..]) {
      assert a == [a[0]] + a[1..];
      assert b[..|a|] == [b[0]] + b[1..][..|a| - 1];
    }
  }

  lemma DiffersBelowCons(a: string, b: string)
    requires a != [] && b != [] && a[0] == b[0]
    ensures DiffersBelow(a, b) <==> DiffersBelow(a[1..], b[1..])
  {
    if DiffersBelow(a, b) {
      var k :| 0 <= k < |a| && k < |b| && a[..k] == b[..k] && a[k] < b[k];
      assert k != 0;
      assert a[1..][..k - 1] == a[..k][1..];
      assert b[1..][..k - 1] == b[..k][1..];
      assert a[1..][k - 1] < b[1..][k - 1];
    }
    if DiffersBelow(a[1..], b[1..]) {
      var k :| 0 <= k < |a[1..]| && k < |b[1..]| && a[1..][..k] == b[1..][..k] && a[1..][k] < b[1..][k];
      assert a[..k + 1] == [a[0]] + a[1..][..k];
      assert b[..k + 1] == [b[0]] + b[1..][..k];
      assert a[k + 1] < b[k + 1];
    }
  }

  /** The recursive order agrees with its index-based description. */
  lemma {:induction false} LessMatchesIndexDefinition(a: string, b: string)
    ensures Less(a, b) <==> ProperPrefix(a, b) || DiffersBelow(a, b)
    decreases |a|
  {
    if a == [] {
      if b != [] {
        assert a == b[..0];
      }
    } else if b == [] {
    } else if a[0] != b[0] {
      if a[0] < b[0] {
        assert a[..0] == b[..0];
      }
    } else {
      LessMatchesIndexDefinition(a[1..], b[1..]);
      ProperPrefixCons(a, b);
      DiffersBelowCons(a, b);
    }
  }

  lemma {:induction false} LessIrreflexive(a: string)
    ensures !Less(a, a)
    decreases |a|
  {
    if a != [] {
      LessIrreflexive(a[1..]);
    }
  }

  lemma {:induction false} LessTransitive(a: string, b: string, c: string)
    requires Less(a, b) && Less(b, c)
    ensures Less(a, c)
    decreases |a|
  {
    if a != [] && b != [] && c != [] && a[0] == b[0] && b[0] == c[0] {
      LessTransitive(a[1..], b[1..], c[1..]);
    }
  }

  /** Any two different strings are ordered one way or the other. */
  lemma {:induction false} LessTotal(a: string, b: string)
    ensures a == b || Less(a, b) || Less(b, a)
    decreases |a|
  {
    if a != [] && b != [] && a[0] == b[0] {
      LessTotal(a[1..], b[1..]);
      if a[1..] == b[1..] {
        assert a == [a[0]] + a[1..] && b == [b[0]] + b[1..];
      }
    }
  }

  lemma {:induction false} LessAsymmetric(a: string, b: string)
    requires Less(a, b)
    ensures !Less(b, a)
    decreases |a|
  {
    if a != [] && b != [] && a[0] == b[0] {
      LessAsymmetric(a[1..], b[1..]);
    }
  }

  /** A string comes before every proper extension of itself. */
  lemma {:induction false} LessPrefix(a: string, b: string)
    requires b != []
    ensures Less(a, a + b)
    decreases |a|
  {
    if a != [] {
      assert (a + b)[1..] == a[1..] + b;
      LessPrefix(a[1..], b);
    }
  }
}

/** Deduplicating and sorting the names (app.py:105): the distinct module
    names of one file in strictly increasing Python string order. */
module SortedNames {
  import opened Text

  function Elems(s: seq<string>): set<string> {
    set x | x in s
  }

  predicate StrictlyIncreasing(s: seq<string>) {
    forall i, j :: 0 <= i < j < |s| ==> Less(s[i], s[j])
  }

  lemma ConsIncreasing(y: string, t: seq<string>)
    requires StrictlyIncreasing(t)
    requires forall z :: z in t ==> Less(y, z)
    ensures StrictlyIncreasing([y] + t)
  {
    var s := [y] + t;
    forall i, j | 0 <= i < j < |s|
      ensures Less(s[i], s[j])
    {
      if i == 0 {
        assert s[j] == t[j - 1];
      } else {
        assert s[i] == t[i - 1] && s[j] == t[j - 1];
      }
    }
  }

  /** Adds `x` to a strictly increasing list, keeping it strictly increasing
      and without repeating an element already present. */
  function Insert(x: string, s: seq<string>): (r: seq<string>)
    requires StrictlyIncreasing(s)
    ensures StrictlyIncreasing(r)
    ensures Elems(r) == Elems(s) + {x}
    decreases |s|
  {
    if s == [] then [x]
    else if x == s[0] then s
    else if Less(x, s[0]) then
      (forall z | z in s ensures Less(x, z) {
         if z != s[0] {
           var j :| 0 <= j < |s| && s[j] == z;
           LessTransitive(x, s[0], z);
         }
       }
       ConsIncreasing(x, s);
       [x] + s)
    else
      LessTotal(x, s[0]);
      var t := Insert(x, s[1..]);
      assert forall z :: z in t ==> Less(s[0], z) by {
        forall z | z in t ensures Less(s[0], z) {
          assert z in Elems(t);
          if z != x {
            assert z in Elems(s[1..]);
            var j :| 0 <= j < |s[1..]| && s[1..][j] == z;
            assert s[j + 1] == z;
          }
        }
      }
      ConsIncreasing(s[0], t);
      assert s == [s[0]] + s[1..];
      assert Elems(s) == {s[0]} + Elems(s[1..]);
      assert Elems([s[0]] + t) == {s[0]} + Elems(t);
      [s[0]] + t
  }

  /** The distinct elements of `xs`, strictly increasing. */
  function SortedUnique(xs: seq<string>): (r: seq<string>)
    ensures StrictlyIncreasing(r)
    ensures Elems(r) == Elems(xs)
  {
    if xs == [] then []
    else
      assert xs == [xs[0]] + xs[1..];
      Insert(xs[0], SortedUnique(xs[1..]))
  }

  lemma NonEmptyHasElems(b: seq<string>)
    ensures b != [] <==> Elems(b) != {}
  {
    if b != [] {
      assert b[0] in Elems(b);
    }
  }

  lemma TailElems(a: seq<string>)
    requires StrictlyIncreasing(a) && a != []
    ensures Elems(a[1..]) == Elems(a) - {a[0]}
  {
    assert a == [a[0]] + a[1..];
    forall z | z in a[1..] ensures z != a[0] {
      var j :| 0 <= j < |a[1..]| && a[1..][j] == z;
      assert Less(a[0], a[j + 1]);
      LessIrreflexive(a[0]);
    }
  }

  /** A strictly increasing list is determined by its set of elements. */
  lemma {:induction false} IncreasingUnique(a: seq<string>, b: seq<string>)
    requires StrictlyIncreasing(a) && StrictlyIncreasing(b)
    requires Elems(a) == Elems(b)
    ensures a == b
    decreases |a|
  {
    if a == [] {
      NonEmptyHasElems(b);
    } else {
      assert a[0] in Elems(b);
      assert b != [];
      if a[0] != b[0] {
        var i :| 0 <= i < |b| && b[i] == a[0];
        assert b[0] in Elems(a);
        var j :| 0 <= j < |a| && a[j] == b[0];
        assert Less(b[0], a[0]) by { assert i > 0; }
        assert Less(a[0], b[0]) by { assert j > 0; }
        LessAsymmetric(a[0], b[0]);
        assert false;
      }
      TailElems(a);
      TailElems(b);
      IncreasingUnique(a[1..], b[1..]);
      assert a == [a[0]] + a[1..] && b == [b[0]] + b[1..];
    }
  }

  /** `SortedUnique` is the one strictly increasing listing of the elements of
      its input, so it depends only on which names occur, not on their order
      or multiplicity. */
  lemma SortedUniqueCanonical(xs: seq<string>, ys: seq<string>)
    requires Elems(xs) == Elems(ys)
    ensures SortedUnique(xs) == SortedUnique(ys)
  {
    IncreasingUnique(SortedUnique(xs), SortedUnique(ys));
  }

  lemma SortedUniqueCharacterised(xs: seq<string>, r: seq<string>)
    requires StrictlyIncreasing(r) && Elems(r) == Elems(xs)
    ensures SortedUnique(xs) == r
  {
    IncreasingUnique(SortedUnique(xs), r);
  }
}

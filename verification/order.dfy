/**
  Python's ordering of `str` values (lexicographic by code point, a proper
  prefix first) and `sorted(...)` of a set of strings: the result lists every
  element once, in strictly ascending order, and is the only sequence that does.
 */
module StringOrder {
  import opened Strings

  /** `a < b` on Python strings. */
  predicate Less(a: string, b: string)
    decreases |a|
  {
    if b == [] then false
    else if a == [] then true
    else if a[0] != b[0] then a[0] < b[0]
    else Less(a[1..], b[1..])
  }

  lemma {:induction false} LessIrreflexive(a: string)
    ensures !Less(a, a)
    decreases |a|
  {
    if a != [] {
      LessIrreflexive(a[1..]);
    }
  }

  lemma {:induction false} LessTransitive(a: string, b: string, c: string)
    requires Less(a, b) && Less(b, c)
    ensures Less(a, c)
    decreases |a|
  {
    if a != [] && a[0] == b[0] && b[0] == c[0] {
      LessTransitive(a[1..], b[1..], c[1..]);
    }
  }

  lemma {:induction false} LessTotal(a: string, b: string)
    requires a != b
    ensures Less(a, b) || Less(b, a)
    decreases |a|
  {
    if a != [] && b != [] && a[0] == b[0] {
      assert a == [a[0]] + a[1..] && b == [b[0]] + b[1..];
      LessTotal(a[1..], b[1..]);
    }
  }

  lemma LessAsymmetric(a: string, b: string)
    requires Less(a, b)
    ensures !Less(b, a)
  {
    if Less(b, a) {
      LessTransitive(a, b, a);
      LessIrreflexive(a);
    }
  }

  /** Strictly ascending: sorted and free of duplicates. */
  predicate StrictlySorted(xs: seq<string>) {
    forall i, j :: 0 <= i < j < |xs| ==> Less(xs[i], xs[j])
  }

  /** `xs` is `sorted(s)` for the set `s`. */
  predicate SortedListing(xs: seq<string>, s: set<string>) {
    StrictlySorted(xs) && Elems(xs) == s
  }

  /** Inserts `x` at its place in a strictly ascending sequence. */
  function Insert(xs: seq<string>, x: string): (r: seq<string>)
    requires StrictlySorted(xs) && x !in xs
    ensures StrictlySorted(r)
    ensures |r| == |xs| + 1
    ensures Elems(r) == Elems(xs) + {x}
  {
    if xs == [] then [x]
    else if Less(x, xs[0]) then
      LessTransitiveFrom(x, xs);
      [x] + xs
    else
      var rest := Insert(xs[1..], x);
      LessTotal(x, xs[0]);
      BelowAll(xs[0], rest, xs[1..], x);
      [xs[0]] + rest
  }

  /** A value below every element of `ys` and below `x` is below every element of a listing of both. */
  lemma BelowAll(h: string, r: seq<string>, ys: seq<string>, x: string)
    requires Elems(r) == Elems(ys) + {x}
    requires Less(h, x)
    requires forall j :: 0 <= j < |ys| ==> Less(h, ys[j])
    ensures forall j :: 0 <= j < |r| ==> Less(h, r[j])
  {
    forall j | 0 <= j < |r|
      ensures Less(h, r[j])
    {
      assert r[j] in Elems(r);
    }
  }

  /** Everything after a smaller head is larger than `x` too. */
  lemma LessTransitiveFrom(x: string, xs: seq<string>)
    requires StrictlySorted(xs) && xs != [] && Less(x, xs[0])
    ensures forall j :: 0 <= j < |xs| ==> Less(x, xs[j])
  {
    forall j | 0 < j < |xs|
      ensures Less(x, xs[j])
    {
      LessTransitive(x, xs[0], xs[j]);
    }
  }

  /** `sorted(s)`: a strictly ascending listing of the set `s`. */
  method SortSet(s: set<string>) returns (r: seq<string>)
    ensures SortedListing(r, s)
    ensures |r| == |s|
  {
    r := [];
    var rest := s;
    while rest != {}
      invariant StrictlySorted(r)
      invariant Elems(r) + rest == s
      invariant Elems(r) !! rest
      invariant |r| + |rest| == |s|
      decreases |rest|
    {
      var x :| x in rest;
      r := Insert(r, x);
      rest := rest - {x};
    }
  }

  lemma ElemsEmpty(xs: seq<string>)
    ensures Elems(xs) == {} ==> xs == []
  {
    if xs != [] {
      assert xs[0] in Elems(xs);
    }
  }

  /** The only strictly ascending listing of a set: `sorted` is deterministic. */
  lemma {:induction false} SortedListingUnique(a: seq<string>, b: seq<string>, s: set<string>)
    requires SortedListing(a, s) && SortedListing(b, s)
    ensures a == b
    decreases |a|
  {
    if a == [] {
      ElemsEmpty(b);
    } else {
      assert a[0] in Elems(b);
      assert b[0] in Elems(a);
      if a[0] != b[0] {
        var i :| 0 <= i < |a| && a[i] == b[0];
        var j :| 0 <= j < |b| && b[j] == a[0];
        assert Less(a[0], b[0]) by { assert Less(a[0], a[i]); }
        assert Less(b[0], a[0]) by { assert Less(b[0], b[j]); }
        LessAsymmetric(a[0], b[0]);
      }
      var t := s - {a[0]};
      assert Elems(a[1..]) == t by {
        forall y | y in a[1..] ensures y != a[0] {
          var k :| 1 <= k < |a| && a[k] == y;
          LessIrreflexive(a[0]);
        }
        assert a == [a[0]] + a[1..];
      }
      assert Elems(b[1..]) == t by {
        forall y | y in b[1..] ensures y != b[0] {
          var k :| 1 <= k < |b| && b[k] == y;
          LessIrreflexive(b[0]);
        }
        assert b == [b[0]] + b[1..];
      }
      SortedListingUnique(a[1..], b[1..], t);
      assert a == [a[0]] + a[1..] && b == [b[0]] + b[1..];
    }
  }
}

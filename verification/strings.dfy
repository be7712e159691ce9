/**
  String operations the packaging script relies on: ASCII lower-casing,
  prefix/suffix/substring tests (Python's `startswith`, `endswith` and `in`),
  and `str.split` / `str.join` with their round-trip laws.
 */
module Strings {

  /** Lower-cases one ASCII letter; every other character is unchanged. */
  function LowerChar(ch: char): char {
    if 'A' <= ch <= 'Z' then (ch as int - 'A' as int + 'a' as int) as char else ch
  }

  /** `s.lower()`, restricted to ASCII letters. */
  function Lower(s: string): (r: string)
    ensures |r| == |s|
    ensures forall i :: 0 <= i < |s| ==> r[i] == LowerChar(s[i])
  {
    if s == [] then [] else [LowerChar(s[0])] + Lower(s[1..])
  }

  /** `s.startswith(p)` */
  predicate StartsWith(s: string, p: string) {
    |p| <= |s| && s[..|p|] == p
  }

  /** `s.endswith(p)` */
  predicate EndsWith(s: string, p: string) {
    |p| <= |s| && s[|s| - |p|..] == p
  }

  /** `k in s`: `k` occurs somewhere in `s` as a contiguous block. */
  predicate Contains(s: string, k: string)
    decreases |s|
  {
    StartsWith(s, k) || (s != [] && Contains(s[1..], k))
  }

  /** `s.split(sep)` for a one-character separator. */
  function Split(s: string, sep: char): (parts: seq<string>)
    ensures |parts| >= 1
    ensures forall i :: 0 <= i < |parts| ==> sep !in parts[i]
  {
    if s == [] then [[]]
    else
      var rest := Split(s[1..], sep);
      if s[0] == sep then [[]] + rest
      else [[s[0]] + rest[0]] + rest[1..]
  }

  /** `sep.join(parts)` */
  function Join(parts: seq<string>, sep: string): string {
    if |parts| == 0 then []
    else if |parts| == 1 then parts[0]
    else parts[0] + sep + Join(parts[1..], sep)
  }

  /** True when no element of `xs` contains `ch`. */
  predicate NoneContain(xs: seq<string>, ch: char) {
    forall i :: 0 <= i < |xs| ==> ch !in xs[i]
  }

  /** The set of the elements of a sequence. */
  function Elems<T>(xs: seq<T>): set<T> {
    set x | x in xs
  }

  // ---------------------------------------------------------------------
  // Substring facts

  lemma {:induction false} ContainsInfix(a: string, k: string, b: string)
    ensures Contains(a + k + b, k)
    decreases |a|
  {
    if a == [] {
      assert (a + k + b)[..|k|] == k;
    } else {
      assert (a + k + b)[1..] == a[1..] + k + b;
      ContainsInfix(a[1..], k, b);
    }
  }

  lemma {:induction false} ContainsExtendRight(s: string, k: string, t: string)
    requires Contains(s, k)
    ensures Contains(s + t, k)
    decreases |s|
  {
    if StartsWith(s, k) {
      assert (s + t)[..|k|] == s[..|k|];
    } else {
      assert (s + t)[1..] == s[1..] + t;
      ContainsExtendRight(s[1..], k, t);
    }
  }

  lemma {:induction false} ContainsExtendLeft(t: string, s: string, k: string)
    requires Contains(s, k)
    ensures Contains(t + s, k)
    decreases |t|
  {
    if t == [] {
      assert t + s == s;
    } else {
      assert (t + s)[1..] == t[1..] + s;
      ContainsExtendLeft(t[1..], s, k);
      assert Contains((t + s)[1..], k);
    }
  }

  /** `k` occurs in `s` starting at position `i`. */
  predicate OccursAt(s: string, k: string, i: int) {
    0 <= i <= |s| - |k| && s[i..i + |k|] == k
  }

  /** What occurs in a part of `s` occurs in `s`. */
  lemma ContainsTransitive(s: string, m: string, k: string)
    requires Contains(s, m) && Contains(m, k)
    ensures Contains(s, k)
  {
    ContainsAt(s, m);
    ContainsAt(m, k);
    var i :| OccursAt(s, m, i);
    var j :| OccursAt(m, k, j);
    var inS := s[i + j..i + j + |k|];
    var inM := m[j..j + |k|];
    assert m == s[i..i + |m|];
    forall t | 0 <= t < |k|
      ensures inS[t] == inM[t]
    {
      assert m[j + t] == s[i..i + |m|][j + t] == s[i + j + t];
    }
    assert inS == inM;
    assert OccursAt(s, k, i + j);
    ContainsAt(s, k);
  }

  /** `k in s` agrees with the positional reading of Python's `in`. */
  lemma {:induction false} ContainsAt(s: string, k: string)
    ensures Contains(s, k) <==> exists i :: OccursAt(s, k, i)
    decreases |s|
  {
    if Contains(s, k) {
      if StartsWith(s, k) {
        assert OccursAt(s, k, 0);
      } else {
        ContainsAt(s[1..], k);
        var i :| OccursAt(s[1..], k, i);
        assert s[i + 1..i + 1 + |k|] == s[1..][i..i + |k|];
        assert OccursAt(s, k, i + 1);
      }
    } else if exists i :: OccursAt(s, k, i) {
      var i :| OccursAt(s, k, i);
      if i == 0 {
        assert false;
      } else {
        assert s[1..][i - 1..i - 1 + |k|] == s[i..i + |k|];
        assert OccursAt(s[1..], k, i - 1);
        ContainsAt(s[1..], k);
        assert false;
      }
    }
  }

  // ---------------------------------------------------------------------
  // split / join

  lemma {:induction false} SplitWithoutSeparator(a: string, sep: char)
    requires sep !in a
    ensures Split(a, sep) == [a]
    decreases |a|
  {
    if a != [] {
      SplitWithoutSeparator(a[1..], sep);
      assert [a[0]] + a[1..] == a;
    }
  }

  lemma {:induction false} SplitAtSeparator(a: string, sep: char, b: string)
    requires sep !in a
    ensures Split(a + [sep] + b, sep) == [a] + Split(b, sep)
    decreases |a|
  {
    var s := a + [sep] + b;
    if a == [] {
      assert s[1..] == b;
    } else {
      assert s[1..] == a[1..] + [sep] + b;
      SplitAtSeparator(a[1..], sep, b);
      assert [a[0]] + a[1..] == a;
    }
  }

  /** `sep.join(s.split(sep)) == s` for every `s`. */
  lemma {:induction false} JoinSplit(s: string, sep: char)
    ensures Join(Split(s, sep), [sep]) == s
    decreases |s|
  {
    if s != [] {
      var rest := Split(s[1..], sep);
      JoinSplit(s[1..], sep);
      if s[0] == sep {
        assert Join([[]] + rest, [sep]) == [] + [sep] + Join(rest, [sep]);
      } else if |rest| == 1 {
        assert Join(rest, [sep]) == rest[0];
      } else {
        var parts := [[s[0]] + rest[0]] + rest[1..];
        assert parts[1..] == rest[1..];
        assert Join(rest, [sep]) == rest[0] + [sep] + Join(rest[1..], [sep]);
      }
    }
  }

  /** `s.split(sep)` recovers the parts that `sep.join` glued together, as long as no part contains `sep`. */
  lemma {:induction false} SplitJoin(parts: seq<string>, sep: char)
    requires |parts| >= 1
    requires NoneContain(parts, sep)
    ensures Split(Join(parts, [sep]), sep) == parts
    decreases |parts|
  {
    if |parts| == 1 {
      SplitWithoutSeparator(parts[0], sep);
    } else {
      SplitJoin(parts[1..], sep);
      SplitAtSeparator(parts[0], sep, Join(parts[1..], [sep]));
      assert [parts[0]] + parts[1..] == parts;
    }
  }

  /** The first piece of `s.split(sep)` is the longest prefix of `s` without `sep`. */
  lemma {:induction false} SplitHead(s: string, sep: char)
    ensures StartsWith(s, Split(s, sep)[0])
    ensures Split(s, sep)[0] == s || s[|Split(s, sep)[0]|] == sep
    decreases |s|
  {
    if s != [] && s[0] != sep {
      SplitHead(s[1..], sep);
      var h := Split(s[1..], sep)[0];
      assert Split(s, sep)[0] == [s[0]] + h;
      assert s == [s[0]] + s[1..];
    }
  }

  /** A block that begins with `p + k` has `k` right after `p`. */
  lemma OccursAfterPrefix(s: string, p: string, k: string)
    requires StartsWith(s, p + k)
    ensures OccursAt(s, k, |p|)
  {
    assert s[|p|..|p| + |k|] == (p + k)[|p|..];
  }

  /** An occurrence inside `b` is an occurrence inside `a + b + c + d`, shifted by `|a|`. */
  lemma OccursInside(a: string, b: string, c: string, d: string, k: string, i: int)
    requires OccursAt(b, k, i)
    ensures OccursAt(a + b + c + d, k, |a| + i)
  {
    assert (a + b + c + d)[|a| + i..|a| + i + |k|] == b[i..i + |k|];
  }

  /** An occurrence of `k` is an occurrence of every prefix of `k`. */
  lemma OccursPrefix(s: string, k: string, p: string, i: int)
    requires OccursAt(s, k, i) && StartsWith(k, p)
    ensures OccursAt(s, p, i)
  {
    assert s[i..i + |p|] == s[i..i + |k|][..|p|];
  }

  lemma StartsWithFront(a: string, b: string, c: string, d: string)
    ensures StartsWith(a + b + c + d, a + b)
  {
    assert (a + b + c + d)[..|a + b|] == a + b;
  }

  lemma EndsWithBack(a: string, b: string)
    ensures EndsWith(a + b, b)
  {
    assert (a + b)[|a + b| - |b|..] == b;
  }

  /** A block cannot occur where its first character never does. */
  lemma {:induction false} MissingFirstChar(s: string, k: string)
    requires k != [] && k[0] !in s
    ensures !Contains(s, k)
    decreases |s|
  {
    if s != [] {
      assert s[0] != k[0];
      assert forall ch :: ch in s[1..] ==> ch in s;
      MissingFirstChar(s[1..], k);
    }
  }

  /** A string without upper-case ASCII letters is its own lower-case form. */
  lemma LowerUnchanged(s: string)
    requires forall i :: 0 <= i < |s| ==> !('A' <= s[i] <= 'Z')
    ensures Lower(s) == s
  {
  }

  /** Lower-casing keeps occurrences: if `k` is in `s`, the lower-cased `k` is in the lower-cased `s`. */
  lemma {:induction false} LowerContains(s: string, k: string)
    requires Contains(s, k)
    ensures Contains(Lower(s), Lower(k))
    decreases |s|
  {
    if StartsWith(s, k) {
      assert Lower(s)[..|k|] == Lower(k);
    } else {
      LowerContains(s[1..], k);
      assert Lower(s)[1..] == Lower(s[1..]);
    }
  }

  /** Lower-casing keeps suffixes. */
  lemma LowerEndsWith(s: string, k: string)
    requires EndsWith(s, k)
    ensures EndsWith(Lower(s), Lower(k))
  {
    var t := Lower(s)[|s| - |k|..];
    forall i | 0 <= i < |k|
      ensures t[i] == Lower(k)[i]
    {
      assert s[|s| - |k|..][i] == k[i];
    }
  }

  // ---------------------------------------------------------------------
  // Sequences taken apart at their last element

  lemma LastSplit<T>(xs: seq<T>)
    requires xs != []
    ensures xs == xs[..|xs| - 1] + [xs[|xs| - 1]]
  {
  }

  lemma PrefixSnoc<T>(xs: seq<T>, i: nat)
    requires i < |xs|
    ensures xs[..i + 1] == xs[..i] + [xs[i]]
  {
  }

  lemma AppendSplit<T>(a: seq<T>, b: seq<T>)
    requires b != []
    ensures a + b == (a + b[..|b| - 1]) + [b[|b| - 1]]
  {
  }
}

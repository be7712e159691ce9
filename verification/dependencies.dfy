/**
  `extract_dependencies` after its regular expression: each captured import
  specifier that does not start with `.` contributes the part before its
  first `/` (the whole specifier when it has none), and the contributions
  are collected into a set.
 */
module Imports {
  import opened Strings

  /** A specifier starting with `.` names a local module, not a package. */
  predicate IsRelative(spec: string) {
    StartsWith(spec, ".")
  }

  /** `spec.split('/')[0]`: the longest prefix of `spec` without `/`. */
  function TopLevelName(spec: string): (name: string)
    ensures '/' !in name
    ensures StartsWith(spec, name)
    ensures name == spec || spec[|name|] == '/'
  {
    SplitHead(spec, '/');
    Split(spec, '/')[0]
  }

  /** What one specifier contributes: nothing when relative, its top-level name otherwise. */
  function Contribution(spec: string): (names: set<string>)
    ensures |names| <= 1
    ensures IsRelative(spec) <==> names == {}
  {
    if IsRelative(spec) then {} else {TopLevelName(spec)}
  }

  /** The dependency names contributed by a run of captured specifiers. */
  function Dependencies(specs: seq<string>): (deps: set<string>)
    ensures forall d :: d in deps ==> '/' !in d && !IsRelative(d)
    decreases |specs|
  {
    if specs == [] then {}
    else
      var last := specs[|specs| - 1];
      var init := Dependencies(specs[..|specs| - 1]);
      NotRelativeHead(last);
      init + Contribution(last)
  }

  /** A non-empty name cut from a specifier that does not start with `.` does not start with `.` either. */
  lemma NotRelativeHead(spec: string)
    ensures !IsRelative(spec) ==> !IsRelative(TopLevelName(spec))
  {
    var name := TopLevelName(spec);
    if !IsRelative(spec) && |name| >= 1 {
      assert name[..1] == spec[..1];
    }
  }

  /**
    The loop of `extract_dependencies`: every capture that does not start
    with `.` adds its top-level name to the set.
   */
  method ExtractDependencies(specs: seq<string>) returns (deps: set<string>)
    ensures deps == Dependencies(specs)
    ensures forall i :: 0 <= i < |specs| && !IsRelative(specs[i]) ==> TopLevelName(specs[i]) in deps
  {
    deps := {};
    var i := 0;
    while i < |specs|
      invariant 0 <= i <= |specs|
      invariant deps == Dependencies(specs[..i])
    {
      PrefixSnoc(specs, i);
      DependenciesSnoc(specs[..i + 1], specs[..i], specs[i]);
      if !IsRelative(specs[i]) {
        deps := deps + {TopLevelName(specs[i])};
      }
      i := i + 1;
    }
    assert specs[..i] == specs;
    DependenciesComplete(specs);
  }

  /** Every specifier that does not start with `.` is represented by its top-level name. */
  lemma {:induction false} DependenciesComplete(specs: seq<string>)
    ensures forall i :: 0 <= i < |specs| && !IsRelative(specs[i]) ==> TopLevelName(specs[i]) in Dependencies(specs)
    decreases |specs|
  {
    if specs != [] {
      var init := specs[..|specs| - 1];
      DependenciesComplete(init);
      assert forall i :: 0 <= i < |init| ==> init[i] == specs[i];
    }
  }

  /** Membership read both ways: a name is a dependency exactly when some non-relative specifier has it as top-level name. */
  lemma {:induction false} DependenciesMembership(specs: seq<string>, d: string)
    ensures d in Dependencies(specs) <==>
      exists i :: 0 <= i < |specs| && !IsRelative(specs[i]) && TopLevelName(specs[i]) == d
    decreases |specs|
  {
    DependenciesComplete(specs);
    if specs != [] {
      var init := specs[..|specs| - 1];
      DependenciesMembership(init, d);
      if d in Dependencies(specs) && d !in Dependencies(init) {
        assert !IsRelative(specs[|specs| - 1]) && TopLevelName(specs[|specs| - 1]) == d;
      }
      if d in Dependencies(init) {
        var i :| 0 <= i < |init| && !IsRelative(init[i]) && TopLevelName(init[i]) == d;
        assert init[i] == specs[i];
      }
    }
  }

  /** Concatenating two runs of captures unites their dependency sets. */
  lemma {:induction false} DependenciesAppend(a: seq<string>, b: seq<string>)
    ensures Dependencies(a + b) == Dependencies(a) + Dependencies(b)
    decreases |b|
  {
    if b == [] {
      assert a + b == a;
    } else {
      var binit := b[..|b| - 1];
      var last := b[|b| - 1];
      DependenciesAppend(a, binit);
      AppendSplit(a, b);
      LastSplit(b);
      DependenciesSnoc(a + b, a + binit, last);
      DependenciesSnoc(b, binit, last);
    }
  }

  /** One more capture adds its own contribution. */
  lemma DependenciesSnoc(specs: seq<string>, init: seq<string>, last: string)
    requires specs == init + [last]
    ensures Dependencies(specs) == Dependencies(init) + Contribution(last)
  {
    assert specs[..|specs| - 1] == init;
  }

  /** A bare package name is its own dependency name. */
  lemma ExamplePackage()
    ensures Dependencies(["react"]) == {"react"}
  {
    WholeName("react");
  }

  /** A relative import contributes nothing. */
  lemma ExampleRelative()
    ensures Dependencies(["./local/file"]) == {}
  {
    assert IsRelative("./local/file") by {
      assert "./local/file"[..1] == ".";
    }
    One("./local/file");
  }

  /** A deep import is cut at its first `/`. */
  lemma ExampleDeepImport()
    ensures Dependencies(["lodash/debounce"]) == {"lodash"}
  {
    CutAt("lodash/debounce", "lodash");
  }

  /** A scoped package is cut at its first `/` too: only the scope remains. */
  lemma ExampleScoped()
    ensures Dependencies(["@scope/pkg/sub"]) == {"@scope"}
  {
    CutAt("@scope/pkg/sub", "@scope");
  }

  /** Two imports from one package give one name. */
  lemma ExampleDuplicates()
    ensures Dependencies(["next/link", "next/image"]) == {"next"}
  {
    SamePackage("next/link", "next/image", "next");
  }

  /** Two deep imports from the same package give that one name. */
  lemma SamePackage(a: string, b: string, name: string)
    requires '/' !in name && |name| >= 1 && name[0] != '.'
    requires |name| < |a| && a[..|name|] == name && a[|name|] == '/'
    requires |name| < |b| && b[..|name|] == name && b[|name|] == '/'
    ensures Dependencies([a, b]) == {name}
  {
    CutAt(a, name);
    CutAt(b, name);
    One(a);
    One(b);
    Two(a, b);
  }

  lemma One(spec: string)
    ensures Dependencies([spec]) == Contribution(spec)
  {
    assert [spec][..0] == [];
  }

  lemma Two(a: string, b: string)
    ensures Dependencies([a, b]) == Contribution(a) + Contribution(b)
  {
    assert [a, b][..1] == [a];
    One(a);
  }

  /** A specifier without `/` that does not start with `.` is its own dependency name. */
  lemma WholeName(spec: string)
    requires '/' !in spec && |spec| >= 1 && spec[0] != '.'
    ensures Dependencies([spec]) == {spec}
  {
    assert !IsRelative(spec) by {
      assert spec[..1] == [spec[0]];
    }
    SplitWithoutSeparator(spec, '/');
    One(spec);
  }

  /** The top-level name of `spec` is `name` when `spec` is `name`, a `/` and more, and `name` has no `/`. */
  lemma CutAt(spec: string, name: string)
    requires '/' !in name && |name| >= 1 && name[0] != '.'
    requires |name| < |spec| && spec[..|name|] == name && spec[|name|] == '/'
    ensures Dependencies([spec]) == {name}
  {
    var t := TopLevelName(spec);
    assert t == spec[..|t|] == spec[..|name|];
    assert spec[..1] == name[..1];
    One(spec);
  }
}

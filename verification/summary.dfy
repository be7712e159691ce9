/**
  `generate_summary`: per processed directory its counts and its sorted
  dependency names, then the sorted union of all dependency names, laid out
  as the summary text.
 */
module Summary {
  import opened Strings
  import opened StringOrder
  import opened Decimal
  import opened Report

  /** What the summary says of one directory. */
  datatype DirSummary = DirSummary(name: string, total: nat, included: nat, excluded: nat, dependencies: seq<string>)

  /** Every dependency name of every processed directory. */
  function AllDependencies(ps: seq<Processed>): (all: set<string>)
    ensures forall k :: 0 <= k < |ps| ==> ps[k].result.deps <= all
    decreases |ps|
  {
    if ps == [] then {} else AllDependencies(ps[..|ps| - 1]) + ps[|ps| - 1].result.deps
  }

  /** `d` is a dependency name of some processed directory. */
  lemma {:induction false} AllDependenciesSound(ps: seq<Processed>, d: string)
    requires d in AllDependencies(ps)
    ensures exists k :: 0 <= k < |ps| && d in ps[k].result.deps
    decreases |ps|
  {
    var init := ps[..|ps| - 1];
    if d in AllDependencies(init) {
      AllDependenciesSound(init, d);
      var k :| 0 <= k < |init| && d in init[k].result.deps;
      assert ps[k] == init[k];
    } else {
      assert d in ps[|ps| - 1].result.deps;
    }
  }

  /** The summary line of one directory describes it. */
  predicate Describes(s: DirSummary, p: Processed) {
    && s.name == p.name
    && s.included == |p.result.included|
    && s.excluded == |p.result.excluded|
    && s.total == s.included + s.excluded
    && SortedListing(s.dependencies, p.result.deps)
  }

  /** The summary's parts describe the processed directories, in order, and their union. */
  predicate Summarizes(ps: seq<Processed>, dirs: seq<DirSummary>, all: seq<string>) {
    && |dirs| == |ps|
    && (forall k :: 0 <= k < |ps| ==> Describes(dirs[k], ps[k]))
    && SortedListing(all, AllDependencies(ps))
  }

  /** The section of one directory. */
  function DirSection(s: DirSummary): string {
    s.name + ":\n"
    + "  Total files: " + Render(s.total) + "\n"
    + "  Included files: " + Render(s.included) + "\n"
    + "  Excluded files: " + Render(s.excluded) + "\n"
    + "  Dependencies: " + Join(s.dependencies, ", ") + "\n\n"
  }

  function DirSections(dirs: seq<DirSummary>): string
    decreases |dirs|
  {
    if dirs == [] then [] else DirSections(dirs[..|dirs| - 1]) + DirSection(dirs[|dirs| - 1])
  }

  const Title: string := "Application Structure Summary:\n\n"

  /** The closing section: every dependency name, on one line. */
  function Closing(all: seq<string>): string {
    "All dependencies:\n" + Join(all, ", ") + "\n"
  }

  /** The summary text. */
  function SummaryText(dirs: seq<DirSummary>, all: seq<string>): string {
    Title + DirSections(dirs) + Closing(all)
  }

  /**
    The loop of `generate_summary`: one section per processed directory in
    processing order, with its dependency names sorted; the union of all
    names, sorted, at the end.
   */
  method GenerateSummary(ps: seq<Processed>) returns (dirs: seq<DirSummary>, all: seq<string>, text: string)
    ensures Summarizes(ps, dirs, all)
    ensures text == SummaryText(dirs, all)
  {
    dirs := [];
    text := Title;
    var union: set<string> := {};
    var k := 0;
    while k < |ps|
      invariant 0 <= k <= |ps|
      invariant |dirs| == k
      invariant forall m :: 0 <= m < k ==> Describes(dirs[m], ps[m])
      invariant union == AllDependencies(ps[..k])
      invariant text == Title + DirSections(dirs)
    {
      var p := ps[k];
      var s := SummarizeDirectory(p);
      TextStep(text, dirs, s);
      DescribesStep(ps, dirs, s);
      AllDependenciesSnoc(ps, k);
      text := text + DirSection(s);
      union := union + p.result.deps;
      dirs := dirs + [s];
      k := k + 1;
    }
    assert ps[..k] == ps;
    all := SortSet(union);
    text := text + Closing(all);
  }

  /** The counts and the sorted dependency names of one directory. */
  method SummarizeDirectory(p: Processed) returns (s: DirSummary)
    ensures Describes(s, p)
  {
    var sorted := SortSet(p.result.deps);
    s := DirSummary(p.name, |p.result.included| + |p.result.excluded|,
      |p.result.included|, |p.result.excluded|, sorted);
  }

  lemma TextStep(text: string, dirs: seq<DirSummary>, s: DirSummary)
    requires text == Title + DirSections(dirs)
    ensures text + DirSection(s) == Title + DirSections(dirs + [s])
  {
    SectionsSnoc(dirs, s);
    Associate(Title, DirSections(dirs), DirSection(s));
  }

  lemma SectionsSnoc(dirs: seq<DirSummary>, s: DirSummary)
    ensures DirSections(dirs + [s]) == DirSections(dirs) + DirSection(s)
  {
    assert (dirs + [s])[..|dirs|] == dirs;
  }

  lemma Associate(a: string, b: string, c: string)
    ensures (a + b) + c == a + (b + c)
  {
  }

  lemma DescribesStep(ps: seq<Processed>, dirs: seq<DirSummary>, s: DirSummary)
    requires |dirs| < |ps|
    requires forall m :: 0 <= m < |dirs| ==> Describes(dirs[m], ps[m])
    requires Describes(s, ps[|dirs|])
    ensures forall m :: 0 <= m < |dirs| + 1 ==> Describes((dirs + [s])[m], ps[m])
  {
  }

  lemma AllDependenciesSnoc(ps: seq<Processed>, k: nat)
    requires k < |ps|
    ensures AllDependencies(ps[..k + 1]) == AllDependencies(ps[..k]) + ps[k].result.deps
  {
    assert ps[..k + 1][..k] == ps[..k];
  }

  /** The summary is determined by what was processed: any two summaries of the same directories are equal. */
  lemma {:induction false} SummaryUnique(ps: seq<Processed>, dirs1: seq<DirSummary>, all1: seq<string>,
                                          dirs2: seq<DirSummary>, all2: seq<string>)
    requires Summarizes(ps, dirs1, all1) && Summarizes(ps, dirs2, all2)
    ensures dirs1 == dirs2 && all1 == all2
    ensures SummaryText(dirs1, all1) == SummaryText(dirs2, all2)
  {
    forall k | 0 <= k < |ps|
      ensures dirs1[k] == dirs2[k]
    {
      assert Describes(dirs1[k], ps[k]) && Describes(dirs2[k], ps[k]);
      SortedListingUnique(dirs1[k].dependencies, dirs2[k].dependencies, ps[k].result.deps);
    }
    SortedListingUnique(all1, all2, AllDependencies(ps));
  }

  /** Every name of every directory appears exactly once in the final list. */
  lemma EveryNameOnce(ps: seq<Processed>, dirs: seq<DirSummary>, all: seq<string>, k: nat, d: string)
    requires Summarizes(ps, dirs, all)
    requires k < |ps| && d in ps[k].result.deps
    ensures d in all
    ensures forall i, j :: 0 <= i < j < |all| ==> all[i] != all[j]
    ensures d in dirs[k].dependencies
  {
    assert Describes(dirs[k], ps[k]);
    assert d in Elems(dirs[k].dependencies);
    assert d in Elems(all);
    forall i, j | 0 <= i < j < |all|
      ensures all[i] != all[j]
    {
      assert Less(all[i], all[j]);
      if all[i] == all[j] {
        LessIrreflexive(all[i]);
      }
    }
  }

  /** The final list holds nothing that no directory contributed. */
  lemma FinalListSound(ps: seq<Processed>, dirs: seq<DirSummary>, all: seq<string>, i: nat)
    requires Summarizes(ps, dirs, all)
    requires i < |all|
    ensures exists k :: 0 <= k < |ps| && all[i] in ps[k].result.deps
  {
    assert all[i] in Elems(all);
    AllDependenciesSound(ps, all[i]);
  }

  /** The counts the summary prints read back as the counts of the directory. */
  lemma CountsReadBack(s: DirSummary, p: Processed)
    requires Describes(s, p)
    ensures Parse(Render(s.total)) == |p.result.included| + |p.result.excluded|
    ensures Parse(Render(s.included)) == |p.result.included|
    ensures Parse(Render(s.excluded)) == |p.result.excluded|
  {
    ParseRender(s.total);
    ParseRender(s.included);
    ParseRender(s.excluded);
  }
}

/**
  `get_all_files`: the files of every walked directory that passes the gate
  are recorded in walk order, each one also going to exactly one of the
  included and excluded lists.
 */
module Classifier {
  import opened Strings
  import opened Rules
  import opened Walk

  /**
    A considered file: the directory names from the walk root down to it,
    its own name, and whether it went to the included list.
   */
  datatype Entry = Entry(trail: seq<string>, name: string, included: bool)

  /** `os.path.relpath(os.path.join(root, file), root_dir)`: the names from the walk root, joined by `/`. */
  function RelPath(trail: seq<string>, name: string): string {
    Join(trail + [name], "/")
  }

  /**
    The entry for file `name` of the directory with trail `trail`. It is
    included exactly when some listed extension ends the lower-cased name, no
    exclusion glob matches the name as it is, and some keyword occurs in the
    lower-cased relative path.
   */
  function Classify(c: Config, trail: seq<string>, name: string): (e: Entry)
    ensures e.trail == trail && e.name == name
    ensures e.included <==>
      && (exists t :: t in c.fileTypes && EndsWith(Lower(name), t))
      && (forall p :: p in c.excludeFiles ==> !GlobMatch(p, name))
      && (exists k :: k in c.relevantKeywords && Contains(Lower(RelPath(trail, name)), k))
    ensures e.included <==> Admitted(c, name, RelPath(trail, name))
  {
    EndsWithAnyMeaning(Lower(name), c.fileTypes);
    MatchesAnyMeaning(c.excludeFiles, name);
    ContainsAnyMeaning(Lower(RelPath(trail, name)), c.relevantKeywords);
    Entry(trail, name, HasFileType(c, name) && !ExcludedByPattern(c, name) && IsRelevant(c, RelPath(trail, name)))
  }

  /** The entries for the files `files` of the directory with trail `trail`. */
  function FileEntries(c: Config, trail: seq<string>, files: seq<string>): seq<Entry>
    decreases |files|
  {
    if files == [] then []
    else FileEntries(c, trail, files[..|files| - 1]) + [Classify(c, trail, files[|files| - 1])]
  }

  /** The files of one visit that are considered: all of them behind the gate, none otherwise. */
  function Considered(c: Config, v: Visit): seq<Entry> {
    if PassesGate(c, v.path) then FileEntries(c, v.trail, v.files) else []
  }

  /** The considered files of a run of visits, in walk order. */
  function Gathered(c: Config, vs: seq<Visit>): seq<Entry>
    decreases |vs|
  {
    if vs == [] then [] else Gathered(c, vs[..|vs| - 1]) + Considered(c, vs[|vs| - 1])
  }

  /** Every file `get_all_files` records, in walk order. */
  function WalkEntries(c: Config, rootDir: string, root: Dir): seq<Entry> {
    Gathered(c, WalkTree(c, rootDir, root))
  }

  /** The entries whose included/excluded decision is `included`, in order. */
  function Select(es: seq<Entry>, included: bool): seq<Entry>
    decreases |es|
  {
    if es == [] then []
    else
      var last := es[|es| - 1];
      Select(es[..|es| - 1], included) + (if last.included == included then [last] else [])
  }

  /** The relative paths of a run of entries. */
  function Paths(es: seq<Entry>): (ps: seq<string>)
    ensures |ps| == |es|
    decreases |es|
  {
    if es == [] then [] else Paths(es[..|es| - 1]) + [RelPath(es[|es| - 1].trail, es[|es| - 1].name)]
  }

  /** `a` is `b` with some elements left out: a subsequence in order. */
  ghost predicate IsSubsequence<T>(a: seq<T>, b: seq<T>)
    decreases |b|
  {
    a == [] ||
    (b != [] &&
      ((a[|a| - 1] == b[|b| - 1] && IsSubsequence(a[..|a| - 1], b[..|b| - 1]))
      || IsSubsequence(a, b[..|b| - 1])))
  }

  // ---------------------------------------------------------------------
  // get_all_files

  /**
    The loop of `get_all_files`: walk the tree; skip the files of a
    directory that fails the gate; otherwise append every file to `all`, and
    to `included` or `excluded` by the three-way test.
   */
  method GetAllFiles(c: Config, rootDir: string, root: Dir)
    returns (all: seq<string>, included: seq<string>, excluded: seq<string>)
    ensures all == Paths(WalkEntries(c, rootDir, root))
    ensures included == Paths(Select(WalkEntries(c, rootDir, root), true))
    ensures excluded == Paths(Select(WalkEntries(c, rootDir, root), false))
    ensures |all| == |included| + |excluded|
    ensures multiset(all) == multiset(included) + multiset(excluded)
    ensures IsSubsequence(included, all) && IsSubsequence(excluded, all)
  {
    var visits := WalkTree(c, rootDir, root);
    all, included, excluded := [], [], [];
    ghost var seen: seq<Entry> := [];
    var i := 0;
    while i < |visits|
      invariant 0 <= i <= |visits|
      invariant seen == Gathered(c, visits[..i])
      invariant Tracks(seen, all, included, excluded)
    {
      var v := visits[i];
      GatheredSnoc(c, visits, i);
      if PassesGate(c, v.path) {
        seen, all, included, excluded := RecordFiles(c, v, seen, all, included, excluded);
      }
      i := i + 1;
    }
    assert visits[..i] == visits;
    PartitionCounts(seen);
    SelectIsSubsequence(seen, true);
    SelectIsSubsequence(seen, false);
  }

  /** The three lists hold the paths of `seen`, of its included entries and of its excluded entries. */
  ghost predicate Tracks(seen: seq<Entry>, all: seq<string>, included: seq<string>, excluded: seq<string>) {
    && all == Paths(seen)
    && included == Paths(Select(seen, true))
    && excluded == Paths(Select(seen, false))
  }

  lemma GatheredSnoc(c: Config, vs: seq<Visit>, i: nat)
    requires i < |vs|
    ensures Gathered(c, vs[..i + 1]) == Gathered(c, vs[..i]) + Considered(c, vs[i])
  {
    assert vs[..i + 1][..i] == vs[..i];
  }

  /** The inner loop of `get_all_files`: records every file of one visit that passed the gate. */
  method RecordFiles(c: Config, v: Visit, ghost seen0: seq<Entry>, all0: seq<string>, inc0: seq<string>, exc0: seq<string>)
    returns (ghost seen: seq<Entry>, all: seq<string>, included: seq<string>, excluded: seq<string>)
    requires Tracks(seen0, all0, inc0, exc0)
    ensures seen == seen0 + FileEntries(c, v.trail, v.files)
    ensures Tracks(seen, all, included, excluded)
  {
    seen, all, included, excluded := seen0, all0, inc0, exc0;
    var j := 0;
    while j < |v.files|
      invariant 0 <= j <= |v.files|
      invariant seen == seen0 + FileEntries(c, v.trail, v.files[..j])
      invariant Tracks(seen, all, included, excluded)
    {
      var e := Classify(c, v.trail, v.files[j]);
      var rel := RelPath(e.trail, e.name);
      FileEntriesSnoc(c, v.trail, v.files, j, seen0);
      TracksSnoc(seen, all, included, excluded, e);
      if e.included {
        included := included + [rel];
      } else {
        excluded := excluded + [rel];
      }
      all := all + [rel];
      seen := seen + [e];
      j := j + 1;
    }
    assert v.files[..j] == v.files;
  }

  lemma FileEntriesSnoc(c: Config, trail: seq<string>, files: seq<string>, j: nat, before: seq<Entry>)
    requires j < |files|
    ensures before + FileEntries(c, trail, files[..j + 1])
      == (before + FileEntries(c, trail, files[..j])) + [Classify(c, trail, files[j])]
  {
    assert files[..j + 1][..j] == files[..j];
    assert FileEntries(c, trail, files[..j + 1]) == FileEntries(c, trail, files[..j]) + [Classify(c, trail, files[j])];
  }

  lemma TracksSnoc(seen: seq<Entry>, all: seq<string>, included: seq<string>, excluded: seq<string>, e: Entry)
    requires Tracks(seen, all, included, excluded)
    ensures var r := RelPath(e.trail, e.name);
      Tracks(seen + [e], all + [r],
        if e.included then included + [r] else included,
        if e.included then excluded else excluded + [r])
  {
    PathsSnoc(seen, e);
    SelectSnoc(seen, e, true);
    SelectSnoc(seen, e, false);
    if e.included {
      PathsSnoc(Select(seen, true), e);
    } else {
      PathsSnoc(Select(seen, false), e);
    }
  }

  lemma PathsSnoc(es: seq<Entry>, e: Entry)
    ensures Paths(es + [e]) == Paths(es) + [RelPath(e.trail, e.name)]
  {
    assert (es + [e])[..|es|] == es;
  }

  lemma SelectSnoc(es: seq<Entry>, e: Entry, included: bool)
    ensures e.included == included ==> Select(es + [e], included) == Select(es, included) + [e]
    ensures e.included != included ==> Select(es + [e], included) == Select(es, included)
  {
    assert (es + [e])[..|es|] == es;
    assert Select(es, included) + [] == Select(es, included);
  }

  // ---------------------------------------------------------------------
  // Partition

  /** Every considered file lands in exactly one of the two lists. */
  lemma {:induction false} PartitionCounts(es: seq<Entry>)
    ensures |Select(es, true)| + |Select(es, false)| == |es|
    ensures multiset(Paths(es)) == multiset(Paths(Select(es, true))) + multiset(Paths(Select(es, false)))
    decreases |es|
  {
    if es != [] {
      var init := es[..|es| - 1];
      PartitionCounts(init);
      LastSplit(es);
      PartitionStep(es, init, es[|es| - 1]);
    }
  }

  lemma PartitionStep(es: seq<Entry>, init: seq<Entry>, last: Entry)
    requires es == init + [last]
    requires |Select(init, true)| + |Select(init, false)| == |init|
    requires multiset(Paths(init)) == multiset(Paths(Select(init, true))) + multiset(Paths(Select(init, false)))
    ensures |Select(es, true)| + |Select(es, false)| == |es|
    ensures multiset(Paths(es)) == multiset(Paths(Select(es, true))) + multiset(Paths(Select(es, false)))
  {
    var r := RelPath(last.trail, last.name);
    PathsSnoc(init, last);
    SelectSnoc(init, last, true);
    SelectSnoc(init, last, false);
    if last.included {
      PathsSnoc(Select(init, true), last);
      MultisetSnoc(Paths(init), Paths(Select(init, true)), Paths(Select(init, false)), r);
    } else {
      PathsSnoc(Select(init, false), last);
      MultisetSnoc(Paths(init), Paths(Select(init, false)), Paths(Select(init, true)), r);
    }
  }

  lemma MultisetSnoc(a: seq<string>, b: seq<string>, c: seq<string>, r: string)
    requires multiset(a) == multiset(b) + multiset(c)
    ensures multiset(a + [r]) == multiset(b + [r]) + multiset(c)
    ensures multiset(a + [r]) == multiset(c) + multiset(b + [r])
  {
  }

  /** Each list keeps walk order. */
  lemma {:induction false} SelectIsSubsequence(es: seq<Entry>, included: bool)
    ensures IsSubsequence(Paths(Select(es, included)), Paths(es))
    decreases |es|
  {
    if es != [] {
      var init := es[..|es| - 1];
      var last := es[|es| - 1];
      SelectIsSubsequence(init, included);
      var a := Paths(Select(es, included));
      var b := Paths(es);
      assert b[..|b| - 1] == Paths(init);
      if last.included == included {
        assert Select(es, included) == Select(init, included) + [last];
        PathsSnoc(Select(init, included), last);
        assert a[..|a| - 1] == Paths(Select(init, included));
      } else {
        assert Select(es, included) == Select(init, included) + [] == Select(init, included);
      }
    }
  }

  /** The classification: an entry is in a list exactly when it was considered and the test gave that list. */
  lemma {:induction false} SelectMembership(es: seq<Entry>, included: bool)
    ensures forall e :: e in Select(es, included) <==> e in es && e.included == included
    decreases |es|
  {
    if es != [] {
      var init := es[..|es| - 1];
      SelectMembership(init, included);
      LastSplit(es);
    }
  }

  // ---------------------------------------------------------------------
  // Gate

  lemma {:induction false} FileEntriesMembership(c: Config, trail: seq<string>, files: seq<string>)
    ensures forall e :: e in FileEntries(c, trail, files) <==> e.name in files && e == Classify(c, trail, e.name)
    decreases |files|
  {
    if files != [] {
      var init := files[..|files| - 1];
      FileEntriesMembership(c, trail, init);
      LastSplit(files);
    }
  }

  /**
    The gate: a file is considered exactly when some walked directory that
    passes the gate on its own full path lists it.
   */
  lemma {:induction false} GatheredMembership(c: Config, vs: seq<Visit>)
    ensures forall e :: e in Gathered(c, vs) <==>
      exists v :: v in vs && PassesGate(c, v.path) && e.name in v.files && e == Classify(c, v.trail, e.name)
    decreases |vs|
  {
    if vs != [] {
      var init := vs[..|vs| - 1];
      var last := vs[|vs| - 1];
      GatheredMembership(c, init);
      FileEntriesMembership(c, last.trail, last.files);
      LastSplit(vs);
    }
  }

  // ---------------------------------------------------------------------
  // The recorded paths

  lemma {:induction false} PathsMembership(es: seq<Entry>, p: string)
    requires p in Paths(es)
    ensures exists e :: e in es && RelPath(e.trail, e.name) == p
    decreases |es|
  {
    var init := es[..|es| - 1];
    var last := es[|es| - 1];
    LastSplit(es);
    PathsSnoc(init, last);
    if p != RelPath(last.trail, last.name) {
      PathsMembership(init, p);
    }
  }

  /**
    The directory names of relative path `p` (all but its last component)
    are not pruned names, and the directory they lead to from `rootDir`
    passes the gate.
   */
  ghost predicate ReachedThroughGate(c: Config, rootDir: string, p: string) {
    var dirs := Split(p, '/')[..|Split(p, '/')| - 1];
    && (forall j :: 0 <= j < |dirs| ==> !IsPruned(c, dirs[j]))
    && PassesGate(c, Descend(rootDir, dirs))
  }

  /**
    Pruning and gate, read off the recorded path strings of a well-formed
    tree: every directory name in a recorded path is not a pruned name, and
    the directory those names lead to passes the gate on its full path.
   */
  lemma RecordedPathsPrunedAndGated(c: Config, rootDir: string, root: Dir)
    requires WellFormed(root)
    ensures forall p :: p in Paths(WalkEntries(c, rootDir, root)) ==> ReachedThroughGate(c, rootDir, p)
  {
    var vs := WalkTree(c, rootDir, root);
    VisitsBelow(c, root, rootDir, []);
    GatheredMembership(c, vs);
    forall p | p in Paths(WalkEntries(c, rootDir, root))
      ensures ReachedThroughGate(c, rootDir, p)
    {
      PathsMembership(WalkEntries(c, rootDir, root), p);
      var e :| e in WalkEntries(c, rootDir, root) && RelPath(e.trail, e.name) == p;
      var v :| v in vs && PassesGate(c, v.path) && e.name in v.files && e == Classify(c, v.trail, e.name);
      RecordedPathOf(c, rootDir, v, e, p);
    }
  }

  /** One recorded path: its directory names are the trail of a visit below the walk root that passed the gate. */
  /** The `i`-th path is the relative path of the `i`-th entry. */
  lemma {:induction false} PathsAt(es: seq<Entry>)
    ensures forall i :: 0 <= i < |es| ==> Paths(es)[i] == RelPath(es[i].trail, es[i].name)
    decreases |es|
  {
    if es != [] {
      var init := es[..|es| - 1];
      PathsAt(init);
      LastSplit(es);
      PathsSnoc(init, es[|es| - 1]);
    }
  }

  /** The path of every entry is among the paths. */
  lemma PathsContain(es: seq<Entry>, e: Entry)
    requires e in es
    ensures RelPath(e.trail, e.name) in Paths(es)
  {
    var i :| 0 <= i < |es| && es[i] == e;
    PathsAt(es);
  }

  /**
    Completeness of `get_all_files`: a file of a directory reached from the
    walk root through names that are not pruned, whose full path passes the
    gate, is recorded under its relative path.
   */
  lemma FileRecorded(c: Config, rootDir: string, root: Dir, names: seq<string>, d: Dir, f: string)
    requires Reaches(c, root, names, d)
    requires f in d.files
    requires PassesGate(c, Descend(rootDir, names))
    ensures RelPath(names, f) in Paths(WalkEntries(c, rootDir, root))
  {
    var v := VisitOf(rootDir, [], names, d);
    WalkComplete(c, root, rootDir, [], names, d);
    assert [] + names == names;
    var e := Classify(c, names, f);
    GatheredMembership(c, WalkTree(c, rootDir, root));
    assert v in WalkTree(c, rootDir, root) && PassesGate(c, v.path) && e.name in v.files && e == Classify(c, v.trail, e.name);
    PathsContain(WalkEntries(c, rootDir, root), e);
  }

  lemma RecordedPathOf(c: Config, rootDir: string, v: Visit, e: Entry, p: string)
    requires Below(c, rootDir, [], v) && SlashFree(v) && PassesGate(c, v.path)
    requires e.name in v.files && e.trail == v.trail && p == RelPath(e.trail, e.name)
    ensures ReachedThroughGate(c, rootDir, p)
  {
    assert v.trail[0..] == v.trail;
    var parts := e.trail + [e.name];
    assert NoneContain(parts, '/');
    SplitJoin(parts, '/');
    assert Split(p, '/')[..|Split(p, '/')| - 1] == e.trail;
  }
}

/**
  The directory walk of `get_all_files`: a top-down `os.walk` over an
  abstract directory tree in which every directory drops, before it is
  descended into, each child whose name is one of the pruned folder names.
  The walk yields one `Visit` per directory reached, in walk order.
 */
module Walk {
  import opened Strings
  import opened Rules

  /** A directory: its name, its subdirectories and its file names, both in listing order. */
  datatype Dir = Dir(name: string, subdirs: seq<Dir>, files: seq<string>)

  /**
    One step of the walk: the directory's full path (the walk root's path
    joined with every name on the way down), the names on the way down from
    the walk root, and the directory's files.
   */
  datatype Visit = Visit(path: string, trail: seq<string>, files: seq<string>)

  /** A real directory listing: no name contains `/`. */
  predicate WellFormed(d: Dir)
    decreases d
  {
    && '/' !in d.name
    && NoneContain(d.files, '/')
    && forall i :: 0 <= i < |d.subdirs| ==> WellFormed(d.subdirs[i])
  }

  /** `os.path.join(a, b)` on POSIX. */
  function JoinPath(a: string, b: string): string {
    if StartsWith(b, "/") then b
    else if a == [] || EndsWith(a, "/") then a + b
    else a + "/" + b
  }

  /** `path` joined with each of `names` in turn. */
  function Descend(path: string, names: seq<string>): string
    decreases |names|
  {
    if names == [] then path else Descend(JoinPath(path, names[0]), names[1..])
  }

  /** The walk below `d`, whose own path is `path` and whose trail from the walk root is `trail`. */
  function Visits(c: Config, d: Dir, path: string, trail: seq<string>): seq<Visit>
    decreases d, 1
  {
    [Visit(path, trail, d.files)] + ChildVisits(c, d, 0, path, trail)
  }

  /** The walks below the children `d.subdirs[i..]` that are not pruned, one after the other. */
  function ChildVisits(c: Config, d: Dir, i: nat, path: string, trail: seq<string>): seq<Visit>
    requires i <= |d.subdirs|
    decreases d, 0, |d.subdirs| - i
  {
    if i == |d.subdirs| then []
    else
      var k := d.subdirs[i];
      (if IsPruned(c, k.name) then [] else Visits(c, k, JoinPath(path, k.name), trail + [k.name]))
      + ChildVisits(c, d, i + 1, path, trail)
  }

  /** `os.walk(root_dir)` after pruning: the walk root is reached with an empty trail. */
  function WalkTree(c: Config, rootDir: string, root: Dir): seq<Visit> {
    Visits(c, root, rootDir, [])
  }

  /**
    What every visit below `path`/`trail` looks like: its trail extends
    `trail` by names none of which is pruned, and its path is `path` joined
    with those names; in a well-formed tree no trail name and no file name
    contains `/`.
   */
  ghost predicate Below(c: Config, path: string, trail: seq<string>, v: Visit) {
    && |trail| <= |v.trail|
    && v.trail[..|trail|] == trail
    && (forall j :: |trail| <= j < |v.trail| ==> !IsPruned(c, v.trail[j]))
    && v.path == Descend(path, v.trail[|trail|..])
  }

  ghost predicate SlashFree(v: Visit) {
    NoneContain(v.trail, '/') && NoneContain(v.files, '/')
  }

  /** Pruning: every visit lies below the starting point through names that are not pruned. */
  lemma {:induction false} VisitsBelow(c: Config, d: Dir, path: string, trail: seq<string>)
    ensures forall v :: v in Visits(c, d, path, trail) ==> Below(c, path, trail, v)
    ensures WellFormed(d) && NoneContain(trail, '/') ==>
      forall v :: v in Visits(c, d, path, trail) ==> SlashFree(v)
    decreases d, 1
  {
    var first := Visit(path, trail, d.files);
    assert first.trail[..|trail|] == trail && first.trail[|trail|..] == [];
    ChildVisitsBelow(c, d, 0, path, trail);
  }

  lemma {:induction false} ChildVisitsBelow(c: Config, d: Dir, i: nat, path: string, trail: seq<string>)
    requires i <= |d.subdirs|
    ensures forall v :: v in ChildVisits(c, d, i, path, trail) ==> Below(c, path, trail, v)
    ensures WellFormed(d) && NoneContain(trail, '/') ==>
      forall v :: v in ChildVisits(c, d, i, path, trail) ==> SlashFree(v)
    decreases d, 0, |d.subdirs| - i
  {
    if i < |d.subdirs| {
      var k := d.subdirs[i];
      ChildVisitsBelow(c, d, i + 1, path, trail);
      if !IsPruned(c, k.name) {
        var kpath := JoinPath(path, k.name);
        var ktrail := trail + [k.name];
        VisitsBelow(c, k, kpath, ktrail);
        forall v | v in Visits(c, k, kpath, ktrail)
          ensures Below(c, path, trail, v)
        {
          BelowChild(c, path, trail, k.name, v);
        }
        if WellFormed(d) && NoneContain(trail, '/') {
          assert WellFormed(k);
        }
      }
    }
  }

  /** A visit below a child that is not pruned is below its parent. */
  lemma BelowChild(c: Config, path: string, trail: seq<string>, name: string, v: Visit)
    requires !IsPruned(c, name)
    requires Below(c, JoinPath(path, name), trail + [name], v)
    ensures Below(c, path, trail, v)
  {
    var ktrail := trail + [name];
    var ext := v.trail[|ktrail|..];
    assert v.trail[..|trail|] == trail;
    assert v.trail[|trail|..] == [name] + ext;
    assert Descend(path, [name] + ext) == Descend(JoinPath(path, name), ext);
  }

  /** The walk root is always visited first, whatever its name. */
  lemma RootVisitedFirst(c: Config, rootDir: string, root: Dir)
    ensures WalkTree(c, rootDir, root)[0] == Visit(rootDir, [], root.files)
  {
  }

  // ---------------------------------------------------------------------
  // The walk, read back from the tree

  /**
    `target` is reached from `d` by going down through subdirectories named
    `names` in turn, none of them a pruned name. The gate plays no part:
    pruning alone decides how far the walk goes.
   */
  ghost predicate Reaches(c: Config, d: Dir, names: seq<string>, target: Dir)
    decreases |names|
  {
    if names == [] then target == d
    else
      exists i ::
        && 0 <= i < |d.subdirs|
        && d.subdirs[i].name == names[0]
        && !IsPruned(c, names[0])
        && Reaches(c, d.subdirs[i], names[1..], target)
  }

  /** The visit of a directory reached from `path`/`trail` through `names`. */
  function VisitOf(path: string, trail: seq<string>, names: seq<string>, target: Dir): Visit {
    Visit(Descend(path, names), trail + names, target.files)
  }

  /** `v` is the visit of some directory reachable from `d`. */
  ghost predicate Reached(c: Config, d: Dir, path: string, trail: seq<string>, v: Visit) {
    exists names, target :: Reaches(c, d, names, target) && v == VisitOf(path, trail, names, target)
  }

  /**
    The walk yields exactly the visits of the directories reachable through
    names that are not pruned, each with its own list of files.
   */
  lemma WalkExactly(c: Config, rootDir: string, root: Dir)
    ensures forall v :: v in WalkTree(c, rootDir, root) <==> Reached(c, root, rootDir, [], v)
  {
    VisitsReached(c, root, rootDir, []);
    forall v | Reached(c, root, rootDir, [], v)
      ensures v in WalkTree(c, rootDir, root)
    {
      var names, target :| Reaches(c, root, names, target) && v == VisitOf(rootDir, [], names, target);
      WalkComplete(c, root, rootDir, [], names, target);
    }
  }

  /** Completeness: every reachable directory is visited, with its files. */
  lemma {:induction false} WalkComplete(c: Config, d: Dir, path: string, trail: seq<string>, names: seq<string>, target: Dir)
    requires Reaches(c, d, names, target)
    ensures VisitOf(path, trail, names, target) in Visits(c, d, path, trail)
    decreases |names|
  {
    if names == [] {
      assert trail + names == trail;
      assert Visits(c, d, path, trail)[0] == VisitOf(path, trail, names, target);
    } else {
      var i :| 0 <= i < |d.subdirs| && d.subdirs[i].name == names[0] && !IsPruned(c, names[0])
        && Reaches(c, d.subdirs[i], names[1..], target);
      var k := d.subdirs[i];
      var v := VisitOf(path, trail, names, target);
      WalkComplete(c, k, JoinPath(path, k.name), trail + [k.name], names[1..], target);
      VisitOfCons(path, trail, k.name, names[1..], target);
      assert names == [k.name] + names[1..];
      ChildVisitsContain(c, d, 0, i, path, trail, v);
    }
  }

  /** A visit of the walk below a child that is not pruned is one of its parent's child visits. */
  lemma {:induction false} ChildVisitsContain(c: Config, d: Dir, from: nat, i: nat, path: string, trail: seq<string>, v: Visit)
    requires from <= i < |d.subdirs|
    requires !IsPruned(c, d.subdirs[i].name)
    requires v in Visits(c, d.subdirs[i], JoinPath(path, d.subdirs[i].name), trail + [d.subdirs[i].name])
    ensures v in ChildVisits(c, d, from, path, trail)
    decreases i - from
  {
    var rest := ChildVisits(c, d, from + 1, path, trail);
    if from < i {
      ChildVisitsContain(c, d, from + 1, i, path, trail, v);
      assert v in rest;
    } else {
      var k := d.subdirs[i];
      assert ChildVisits(c, d, from, path, trail) == Visits(c, k, JoinPath(path, k.name), trail + [k.name]) + rest;
    }
  }

  /** Soundness: every visit is the visit of a reachable directory, with that directory's files. */
  lemma {:induction false} VisitsReached(c: Config, d: Dir, path: string, trail: seq<string>)
    ensures forall v :: v in Visits(c, d, path, trail) ==> Reached(c, d, path, trail, v)
    decreases d, 1
  {
    assert Reaches(c, d, [], d);
    assert trail + [] == trail;
    assert Visit(path, trail, d.files) == VisitOf(path, trail, [], d);
    ChildVisitsReached(c, d, 0, path, trail);
  }

  lemma {:induction false} ChildVisitsReached(c: Config, d: Dir, i: nat, path: string, trail: seq<string>)
    requires i <= |d.subdirs|
    ensures forall v :: v in ChildVisits(c, d, i, path, trail) ==> Reached(c, d, path, trail, v)
    decreases d, 0, |d.subdirs| - i
  {
    if i < |d.subdirs| {
      var k := d.subdirs[i];
      ChildVisitsReached(c, d, i + 1, path, trail);
      if !IsPruned(c, k.name) {
        VisitsReached(c, k, JoinPath(path, k.name), trail + [k.name]);
        forall v | v in Visits(c, k, JoinPath(path, k.name), trail + [k.name])
          ensures Reached(c, d, path, trail, v)
        {
          ReachedThroughChild(c, d, i, path, trail, v);
        }
      }
    }
  }

  /** A directory reachable from a child that is not pruned is reachable from the parent. */
  lemma ReachedThroughChild(c: Config, d: Dir, i: nat, path: string, trail: seq<string>, v: Visit)
    requires i < |d.subdirs| && !IsPruned(c, d.subdirs[i].name)
    requires Reached(c, d.subdirs[i], JoinPath(path, d.subdirs[i].name), trail + [d.subdirs[i].name], v)
    ensures Reached(c, d, path, trail, v)
  {
    var k := d.subdirs[i];
    var names, target :| Reaches(c, k, names, target)
      && v == VisitOf(JoinPath(path, k.name), trail + [k.name], names, target);
    ReachesCons(c, d, i, names, target);
    VisitOfCons(path, trail, k.name, names, target);
  }

  /** Going down into a child that is not pruned, then on through `names`. */
  lemma ReachesCons(c: Config, d: Dir, i: nat, names: seq<string>, target: Dir)
    requires i < |d.subdirs| && !IsPruned(c, d.subdirs[i].name)
    requires Reaches(c, d.subdirs[i], names, target)
    ensures Reaches(c, d, [d.subdirs[i].name] + names, target)
  {
    var longer := [d.subdirs[i].name] + names;
    assert longer[0] == d.subdirs[i].name && longer[1..] == names;
  }

  /** The visit through `name` then `names` is the visit from the child through `names`. */
  lemma VisitOfCons(path: string, trail: seq<string>, name: string, names: seq<string>, target: Dir)
    ensures VisitOf(JoinPath(path, name), trail + [name], names, target) == VisitOf(path, trail, [name] + names, target)
  {
    var longer := [name] + names;
    assert longer[0] == name && longer[1..] == names;
    assert trail + [name] + names == trail + longer;
  }

  /**
    At every depth, each child of a reachable directory whose name is not
    pruned is walked, with its own files, whether or not its parent passes
    the gate.
   */
  lemma ChildrenWalked(c: Config, rootDir: string, root: Dir, names: seq<string>, d: Dir, j: nat)
    requires Reaches(c, root, names, d)
    requires j < |d.subdirs| && !IsPruned(c, d.subdirs[j].name)
    ensures VisitOf(rootDir, [], names + [d.subdirs[j].name], d.subdirs[j]) in WalkTree(c, rootDir, root)
  {
    ReachesSnoc(c, root, names, d, j);
    WalkComplete(c, root, rootDir, [], names + [d.subdirs[j].name], d.subdirs[j]);
  }

  /** One more step down through a child that is not pruned. */
  lemma {:induction false} ReachesSnoc(c: Config, d: Dir, names: seq<string>, target: Dir, j: nat)
    requires Reaches(c, d, names, target)
    requires j < |target.subdirs| && !IsPruned(c, target.subdirs[j].name)
    ensures Reaches(c, d, names + [target.subdirs[j].name], target.subdirs[j])
    decreases |names|
  {
    var longer := names + [target.subdirs[j].name];
    if names == [] {
      assert longer[0] == target.subdirs[j].name && longer[1..] == [];
      assert Reaches(c, target.subdirs[j], longer[1..], target.subdirs[j]);
    } else {
      var i :| 0 <= i < |d.subdirs| && d.subdirs[i].name == names[0] && !IsPruned(c, names[0])
        && Reaches(c, d.subdirs[i], names[1..], target);
      ReachesSnoc(c, d.subdirs[i], names[1..], target, j);
      assert longer[0] == names[0] && longer[1..] == names[1..] + [target.subdirs[j].name];
    }
  }

  /** Joining a name without `/` onto a path keeps the path as a prefix. */
  lemma {:induction false} DescendExtends(path: string, names: seq<string>)
    requires NoneContain(names, '/')
    ensures StartsWith(Descend(path, names), path)
    decreases |names|
  {
    if names != [] {
      var next := JoinPath(path, names[0]);
      assert !StartsWith(names[0], "/") by {
        if |names[0]| >= 1 {
          assert names[0][..1] == [names[0][0]];
        }
      }
      assert StartsWith(next, path);
      DescendExtends(next, names[1..]);
    }
  }

  /**
    The gate reads the full path, walk root included: when the walk root's
    own path already contains a gate substring, every directory of a
    well-formed tree passes the gate.
   */
  lemma GateOpenBelowMatchingRoot(c: Config, rootDir: string, root: Dir)
    requires WellFormed(root)
    requires PassesGate(c, rootDir)
    ensures forall v :: v in WalkTree(c, rootDir, root) ==> PassesGate(c, v.path)
  {
    VisitsBelow(c, root, rootDir, []);
    ContainsAnyMeaning(rootDir, c.includeSubdirs);
    var s :| s in c.includeSubdirs && Contains(rootDir, s);
    forall v | v in WalkTree(c, rootDir, root)
      ensures PassesGate(c, v.path)
    {
      assert v.trail[0..] == v.trail;
      DescendExtends(rootDir, v.trail);
      assert v.path == rootDir + v.path[|rootDir|..];
      ContainsExtendRight(rootDir, s, v.path[|rootDir|..]);
      ContainsAnyMeaning(v.path, c.includeSubdirs);
    }
  }
}

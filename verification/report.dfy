/**
  `write_source_files`, the branch of `process_directory` that decides
  whether a report is written at all, and `combine_all_files`. File contents
  come from a `FileSystem`: a function from a joined path to the outcome of
  reading that path.
 */
module Report {
  import opened Strings
  import opened Rules
  import opened Walk
  import opened Classifier
  import opened Imports

  /** The text of a source file and the import specifiers the scanner captures in it. */
  datatype Content = Content(text: string, specs: seq<string>)

  /** The outcome of opening and reading a file: its content, or the text of the exception. */
  datatype ReadResult = Read(content: Content) | Failed(reason: string)

  /** The files on disk, by full path. */
  type FileSystem = string -> ReadResult

  /** An included file and what reading it gave. */
  datatype Item = Item(path: string, read: ReadResult)

  const IncludedHeader: string := "// Included files:\n"
  const ExcludedHeader: string := "\n// Excluded files:\n"
  const ErrorPrefix: string := "// Error reading file: "

  /** The comment line that names a file. */
  function PathLine(path: string): string {
    "// " + path + "\n"
  }

  /** What follows an included file's name line: its text, or one error line. */
  function Body(r: ReadResult): string {
    match r
    case Read(content) => content.text
    case Failed(reason) => ErrorLine(reason)
  }

  /** The line written in place of a file's text when reading it raised. */
  function ErrorLine(reason: string): string {
    ErrorPrefix + reason + "\n"
  }

  /** One included file in the report: its name line, its body, then a blank line. */
  function Block(item: Item): (b: string)
    ensures StartsWith(b, PathLine(item.path))
    ensures EndsWith(b, "\n\n")
  {
    PathLine(item.path) + Body(item.read) + "\n\n"
  }

  /** The blocks of a run of included files, one after the other. */
  function Blocks(items: seq<Item>): string
    decreases |items|
  {
    if items == [] then [] else Blocks(items[..|items| - 1]) + Block(items[|items| - 1])
  }

  /** The name lines of a run of excluded files. */
  function PathLines(paths: seq<string>): string
    decreases |paths|
  {
    if paths == [] then [] else PathLines(paths[..|paths| - 1]) + PathLine(paths[|paths| - 1])
  }

  /** The whole report of one directory. */
  function ReportText(items: seq<Item>, excluded: seq<string>): string {
    IncludedHeader + Blocks(items) + ExcludedHeader + PathLines(excluded)
  }

  /** Each included path with what reading `os.path.join(root_dir, path)` gives. */
  function Reads(fs: FileSystem, rootDir: string, paths: seq<string>): (items: seq<Item>)
    ensures |items| == |paths|
    ensures forall i :: 0 <= i < |paths| ==> items[i].path == paths[i] && items[i].read == fs(JoinPath(rootDir, paths[i]))
    decreases |paths|
  {
    if paths == [] then []
    else
      var p := paths[|paths| - 1];
      Reads(fs, rootDir, paths[..|paths| - 1]) + [Item(p, fs(JoinPath(rootDir, p)))]
  }

  /** The dependency names of the files of a run that were read successfully. */
  function ReadDependencies(items: seq<Item>): (deps: set<string>)
    ensures forall d :: d in deps ==> '/' !in d && !IsRelative(d)
    decreases |items|
  {
    if items == [] then {}
    else
      var last := items[|items| - 1];
      ReadDependencies(items[..|items| - 1]) + (if last.read.Read? then Dependencies(last.read.content.specs) else {})
  }

  // ---------------------------------------------------------------------
  // write_source_files

  /**
    The loop of `write_source_files`: the report text, and the union of the
    dependency names of the included files that could be read.
   */
  method WriteSourceFiles(included: seq<string>, excluded: seq<string>, rootDir: string, fs: FileSystem)
    returns (text: string, deps: set<string>)
    ensures text == ReportText(Reads(fs, rootDir, included), excluded)
    ensures deps == ReadDependencies(Reads(fs, rootDir, included))
    ensures forall d :: d in deps <==>
      exists i :: 0 <= i < |included| && Contributes(Item(included[i], fs(JoinPath(rootDir, included[i]))), d)
  {
    var blocks;
    blocks, deps := WriteIncluded(included, rootDir, fs);
    var lines := WriteExcluded(excluded);
    text := IncludedHeader + blocks + ExcludedHeader + lines;
    DependencyOrigins(included, rootDir, fs);
  }

  /** The first loop of `write_source_files`: one block per included file, and the names its imports contribute. */
  method WriteIncluded(included: seq<string>, rootDir: string, fs: FileSystem) returns (blocks: string, deps: set<string>)
    ensures blocks == Blocks(Reads(fs, rootDir, included))
    ensures deps == ReadDependencies(Reads(fs, rootDir, included))
  {
    ghost var items := Reads(fs, rootDir, included);
    blocks := [];
    deps := {};
    var i := 0;
    while i < |included|
      invariant 0 <= i <= |included|
      invariant blocks == Blocks(items[..i])
      invariant deps == ReadDependencies(items[..i])
    {
      var file := included[i];
      var r := fs(JoinPath(rootDir, file));
      assert items[i] == Item(file, r);
      BlocksSnoc(items, i, []);
      ReadDependenciesSnoc(items, i);
      blocks := blocks + (PathLine(file) + Body(r) + "\n\n");
      if r.Read? {
        var found := ExtractDependencies(r.content.specs);
        deps := deps + found;
      }
      i := i + 1;
    }
    assert items[..i] == items;
  }

  /** The second loop of `write_source_files`: one path line per excluded file. */
  method WriteExcluded(excluded: seq<string>) returns (lines: string)
    ensures lines == PathLines(excluded)
  {
    lines := [];
    var j := 0;
    while j < |excluded|
      invariant 0 <= j <= |excluded|
      invariant lines == PathLines(excluded[..j])
    {
      PathLinesSnoc(excluded, j, []);
      lines := lines + PathLine(excluded[j]);
      j := j + 1;
    }
    assert excluded[..j] == excluded;
  }

  /** The dependency names of the read files, traced back to the included file each came from. */
  lemma DependencyOrigins(included: seq<string>, rootDir: string, fs: FileSystem)
    ensures forall d :: d in ReadDependencies(Reads(fs, rootDir, included)) <==>
      exists i :: 0 <= i < |included| && Contributes(Item(included[i], fs(JoinPath(rootDir, included[i]))), d)
  {
    var items := Reads(fs, rootDir, included);
    forall d
      ensures d in ReadDependencies(items) <==>
        exists i :: 0 <= i < |included| && Contributes(Item(included[i], fs(JoinPath(rootDir, included[i]))), d)
    {
      ReadDependenciesMembership(items, d);
      if d in ReadDependencies(items) {
        var i :| 0 <= i < |items| && Contributes(items[i], d);
        assert items[i] == Item(included[i], fs(JoinPath(rootDir, included[i])));
      }
    }
  }

  lemma BlocksSnoc(items: seq<Item>, i: nat, front: string)
    requires i < |items|
    ensures Blocks(items[..i + 1]) == Blocks(items[..i]) + Block(items[i])
    ensures front + Blocks(items[..i + 1]) == (front + Blocks(items[..i])) + Block(items[i])
  {
    assert items[..i + 1][..i] == items[..i];
  }

  lemma PathLinesSnoc(paths: seq<string>, j: nat, front: string)
    requires j < |paths|
    ensures PathLines(paths[..j + 1]) == PathLines(paths[..j]) + PathLine(paths[j])
    ensures front + PathLines(paths[..j + 1]) == (front + PathLines(paths[..j])) + PathLine(paths[j])
  {
    assert paths[..j + 1][..j] == paths[..j];
  }

  lemma ReadDependenciesSnoc(items: seq<Item>, i: nat)
    requires i < |items|
    ensures ReadDependencies(items[..i + 1]) ==
      ReadDependencies(items[..i]) + (if items[i].read.Read? then Dependencies(items[i].read.content.specs) else {})
  {
    assert items[..i + 1][..i] == items[..i];
  }

  /** `item` was read successfully and one of its imports names `d`. */
  predicate Contributes(item: Item, d: string) {
    item.read.Read? && d in Dependencies(item.read.content.specs)
  }

  lemma ReadDependenciesLast(items: seq<Item>, d: string)
    requires items != []
    ensures d in ReadDependencies(items) <==>
      d in ReadDependencies(items[..|items| - 1]) || Contributes(items[|items| - 1], d)
  {
  }

  /** A name is in the directory's set exactly when a successfully read file contributes it. */
  lemma ReadDependenciesMembership(items: seq<Item>, d: string)
    ensures d in ReadDependencies(items) <==> exists i :: 0 <= i < |items| && Contributes(items[i], d)
  {
    if d in ReadDependencies(items) {
      MembershipSound(items, d);
    }
    if exists i :: 0 <= i < |items| && Contributes(items[i], d) {
      var i :| 0 <= i < |items| && Contributes(items[i], d);
      MembershipComplete(items, d, i);
    }
  }

  lemma {:induction false} MembershipSound(items: seq<Item>, d: string)
    requires d in ReadDependencies(items)
    ensures exists i :: 0 <= i < |items| && Contributes(items[i], d)
    decreases |items|
  {
    var init := items[..|items| - 1];
    ReadDependenciesLast(items, d);
    if d in ReadDependencies(init) {
      MembershipSound(init, d);
      var i :| 0 <= i < |init| && Contributes(init[i], d);
      assert items[i] == init[i];
    } else {
      assert Contributes(items[|items| - 1], d);
    }
  }

  lemma {:induction false} MembershipComplete(items: seq<Item>, d: string, i: nat)
    requires i < |items| && Contributes(items[i], d)
    ensures d in ReadDependencies(items)
    decreases |items|
  {
    var init := items[..|items| - 1];
    ReadDependenciesLast(items, d);
    if i < |init| {
      assert init[i] == items[i];
      MembershipComplete(init, d, i);
    }
  }

  /** Files that could not be read add no dependency names: dropping them leaves the set unchanged. */
  lemma {:induction false} UnreadableAddNothing(items: seq<Item>, path: string, reason: string)
    ensures ReadDependencies(items + [Item(path, Failed(reason))]) == ReadDependencies(items)
  {
    var all := items + [Item(path, Failed(reason))];
    assert all[..|all| - 1] == items;
  }

  // ---------------------------------------------------------------------
  // Layout

  /** Where the block of the `i`-th included file starts in the report. */
  function BlockOffset(items: seq<Item>, i: nat): nat
    requires i <= |items|
  {
    |IncludedHeader| + |Blocks(items[..i])|
  }

  /** Where the name line of the `j`-th excluded file starts in the report. */
  function LineOffset(items: seq<Item>, excluded: seq<string>, j: nat): nat
    requires j <= |excluded|
  {
    |IncludedHeader| + |Blocks(items)| + |ExcludedHeader| + |PathLines(excluded[..j])|
  }

  /** The blocks of a prefix of the files begin the blocks of all of them. */
  lemma {:induction false} BlocksPrefix(items: seq<Item>, i: nat)
    requires i <= |items|
    ensures StartsWith(Blocks(items), Blocks(items[..i]))
    decreases |items| - i
  {
    if i < |items| {
      BlocksPrefix(items, i + 1);
      BlocksSnoc(items, i, []);
      var a := Blocks(items[..i]);
      var b := Blocks(items[..i + 1]);
      assert b[..|a|] == a;
    } else {
      assert items[..i] == items;
    }
  }

  lemma {:induction false} PathLinesPrefix(paths: seq<string>, j: nat)
    requires j <= |paths|
    ensures StartsWith(PathLines(paths), PathLines(paths[..j]))
    decreases |paths| - j
  {
    if j < |paths| {
      PathLinesPrefix(paths, j + 1);
      assert paths[..j + 1][..j] == paths[..j];
      var a := PathLines(paths[..j]);
      var b := PathLines(paths[..j + 1]);
      assert b[..|a|] == a;
    } else {
      assert paths[..j] == paths;
    }
  }

  /**
    The included section: the `i`-th included file's block, name line first,
    sits at its offset, every block after the one before it; this holds
    whether or not the file could be read.
   */
  lemma IncludedLayout(items: seq<Item>, excluded: seq<string>, i: nat)
    requires i < |items|
    ensures OccursAt(ReportText(items, excluded), Block(items[i]), BlockOffset(items, i))
    ensures OccursAt(ReportText(items, excluded), PathLine(items[i].path), BlockOffset(items, i))
    ensures BlockOffset(items, i) < BlockOffset(items, i + 1)
  {
    var blk := Block(items[i]);
    var pre := Blocks(items[..i]);
    var all := Blocks(items);
    BlocksPrefix(items, i + 1);
    BlocksSnoc(items, i, []);
    OccursAfterPrefix(all, pre, blk);
    OccursInside(IncludedHeader, all, ExcludedHeader, PathLines(excluded), blk, |pre|);
    OccursPrefix(ReportText(items, excluded), blk, PathLine(items[i].path), BlockOffset(items, i));
  }

  /** The excluded section: the `j`-th excluded file's name line sits at its offset, after all included blocks. */
  lemma ExcludedLayout(items: seq<Item>, excluded: seq<string>, j: nat)
    requires j < |excluded|
    ensures OccursAt(ReportText(items, excluded), PathLine(excluded[j]), LineOffset(items, excluded, j))
    ensures BlockOffset(items, |items|) < LineOffset(items, excluded, j) < LineOffset(items, excluded, j + 1)
  {
    var line := PathLine(excluded[j]);
    var pre := PathLines(excluded[..j]);
    var all := PathLines(excluded);
    PathLinesPrefix(excluded, j + 1);
    PathLinesSnoc(excluded, j, []);
    OccursAfterPrefix(all, pre, line);
    OccursInside(IncludedHeader + Blocks(items) + ExcludedHeader, all, [], [], line, |pre|);
    assert IncludedHeader + Blocks(items) + ExcludedHeader + all + [] + [] == ReportText(items, excluded);
    assert items[..|items|] == items;
  }

  /** A file that could not be read still gets its block, which carries the error line. */
  lemma FailedReadReported(items: seq<Item>, excluded: seq<string>, i: nat)
    requires i < |items| && items[i].read.Failed?
    ensures Contains(ReportText(items, excluded), PathLine(items[i].path) + ErrorLine(items[i].read.reason))
  {
    IncludedLayout(items, excluded, i);
    var k := PathLine(items[i].path) + ErrorLine(items[i].read.reason);
    assert Block(items[i]) == k + "\n\n";
    OccursPrefix(ReportText(items, excluded), Block(items[i]), k, BlockOffset(items, i));
    ContainsAt(ReportText(items, excluded), k);
  }

  // ---------------------------------------------------------------------
  // process_directory

  /** What `process_directory` returns for one directory. */
  datatype DirResult = DirResult(path: string, included: seq<string>, excluded: seq<string>, deps: set<string>)

  /** The report file `process_directory` writes, if any. */
  datatype Output = NoFiles | Written(fileName: string, text: string)

  /**
    `process_directory`: walk and classify; when the walk recorded at least
    one file, write the report and collect dependency names; otherwise write
    nothing and return an empty dependency set.
   */
  method ProcessDirectory(c: Config, dirName: string, dirPath: string, root: Dir, fs: FileSystem)
    returns (res: DirResult, out: Output)
    ensures res.path == dirPath
    ensures res.included == Paths(Select(WalkEntries(c, dirPath, root), true))
    ensures res.excluded == Paths(Select(WalkEntries(c, dirPath, root), false))
    ensures out.NoFiles? <==> WalkEntries(c, dirPath, root) == []
    ensures out.NoFiles? ==> res.included == [] && res.excluded == [] && res.deps == {}
    ensures out.Written? ==>
      && out.fileName == dirName + "_source_files.txt"
      && out.text == ReportText(Reads(fs, dirPath, res.included), res.excluded)
      && res.deps == ReadDependencies(Reads(fs, dirPath, res.included))
  {
    var all, included, excluded := GetAllFiles(c, dirPath, root);
    var deps: set<string>;
    if |all| > 0 {
      var text;
      text, deps := WriteSourceFiles(included, excluded, dirPath, fs);
      out := Written(dirName + "_source_files.txt", text);
    } else {
      deps := {};
      out := NoFiles;
    }
    res := DirResult(dirPath, included, excluded, deps);
  }

  // ---------------------------------------------------------------------
  // combine_all_files

  /** The processed directories, in the order they were processed, with their names. */
  datatype Processed = Processed(name: string, result: DirResult)

  /** One directory's part of the combined file: a heading, then the blocks of its included files. */
  function CombinedSection(p: Processed, fs: FileSystem): string {
    "// Files from " + p.name + ":\n\n" + Blocks(Reads(fs, p.result.path, p.result.included))
  }

  /** `combine_all_files`: every directory's part, in order. */
  function Combined(ps: seq<Processed>, fs: FileSystem): string
    decreases |ps|
  {
    if ps == [] then [] else Combined(ps[..|ps| - 1], fs) + CombinedSection(ps[|ps| - 1], fs)
  }

  /**
    The combined file carries, for every processed directory, the very block
    its report wrote for each included file, files unchanged in between.
   */
  lemma CombinedRepeatsEveryBlock(ps: seq<Processed>, fs: FileSystem, k: nat, i: nat)
    requires k < |ps| && i < |ps[k].result.included|
    ensures Contains(Combined(ps, fs), Block(Reads(fs, ps[k].result.path, ps[k].result.included)[i]))
  {
    var items := Reads(fs, ps[k].result.path, ps[k].result.included);
    var blk := Block(items[i]);
    BlocksPrefix(items, i + 1);
    BlocksSnoc(items, i, []);
    OccursAfterPrefix(Blocks(items), Blocks(items[..i]), blk);
    ContainsAt(Blocks(items), blk);
    ContainsExtendLeft("// Files from " + ps[k].name + ":\n\n", Blocks(items), blk);
    CombinedHoldsEverySection(ps, fs, k);
    ContainsTransitive(Combined(ps, fs), CombinedSection(ps[k], fs), blk);
  }

  /** Each directory's section lies, in order, inside the combined file. */
  lemma {:induction false} CombinedHoldsEverySection(ps: seq<Processed>, fs: FileSystem, k: nat)
    requires k < |ps|
    ensures Contains(Combined(ps, fs), CombinedSection(ps[k], fs))
    decreases |ps|
  {
    var init := ps[..|ps| - 1];
    if k < |ps| - 1 {
      assert init[k] == ps[k];
      CombinedHoldsEverySection(init, fs, k);
      ContainsExtendRight(Combined(init, fs), CombinedSection(ps[k], fs), CombinedSection(ps[|ps| - 1], fs));
    } else {
      var s := CombinedSection(ps[k], fs);
      ContainsInfix(Combined(init, fs), s, []);
      assert Combined(init, fs) + s + [] == Combined(ps, fs);
    }
  }
}

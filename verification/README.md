# packsource in Dafny

`utils/packsource.py` packs the source of a Next.js project into text
files for reading. It does four things:

- **Walk and classify.** It walks a directory tree. Folders with an excluded
  name are pruned. Files are considered only in directories whose full path
  contains one of the "include" substrings. Each considered file is sorted
  into an *included* or an *excluded* list by a three-way test:
  - a listed extension, checked on the lower-cased name;
  - no exclusion glob, checked case-sensitively;
  - a relevant keyword in the lower-cased relative path.
- **Write a report.** Per processed directory it writes a report: a header;
  each included file's name line, its text (or an error line) and a blank
  line; then a header and one name line per excluded file.
- **Collect dependency names.** It reads the import specifiers of every
  included file. A specifier that does not start with `.` contributes its
  part before the first `/`.
- **Summarise and combine.** It writes a summary with per-directory counts,
  each directory's sorted dependency names and the sorted union of all of
  them. It also writes a combined file holding the included files of every
  directory.

This project models that core as pure Dafny functions and methods over
immutable data. Nothing here performs I/O.

- **The directory tree** is a `Walk.Dir` value, and `os.walk` after pruning
  is `Walk.Visits`.
- **File contents** come from a `Report.FileSystem`. It maps a joined path
  to either the file's text together with the import specifiers found in it,
  or the text of the exception raised when reading it.
- **The five rule lists** are a `Rules.Config`. `Rules.Default` holds the
  script's values. Every general property is proved for every
  configuration.

Modules, one per concern of the script:

| module | file | what it models |
|---|---|---|
| `Strings` | strings.dfy | `lower`, `startswith`, `endswith`, `in`, `split('/')` and `'/'.join` |
| `StringOrder` | order.dfy | Python's `str` ordering and `sorted` of a set |
| `Decimal` | decimal.dfy | rendering a count in an f-string |
| `Rules` | rules.dfy | the rule lists, `fnmatch` for `*` patterns, the three-way test, pruning and the gate |
| `Walk` | walk.dfy | `os.walk` with in-place pruning |
| `Classifier` | classifier.dfy | `get_all_files` |
| `Imports` | dependencies.dfy | `extract_dependencies` after its regular expression |
| `Report` | report.dfy | `write_source_files`, `process_directory`, `combine_all_files` |
| `Summary` | summary.dfy | `generate_summary` |
| `Scenario` | example.dfy | one small project run through the rules from start to finish |

Two consequences of the code are worth stating plainly:

- **Files in a directory that fails the gate** appear in no list at all. The
  `continue` at line 28 skips the whole directory, so its files reach
  neither list nor the list of all files.
- **Pruning compares directory names only** (line 25). A file whose own name
  equals a pruned folder name, say a file called `utils`, is still listed.
  `Classifier.RecordedPathsPrunedAndGated` therefore states pruning on the
  directory components of a recorded path.

Two further behaviours of the code are kept as they are:

- **Scoped packages.** An import of `@scope/pkg/sub` yields the dependency
  name `@scope`, because the code keeps the part before the first `/`.
- **The gate reads the full path.** The test at line 27 includes the walk
  root's own path. A root whose path already contains `app` therefore opens
  the gate for every directory below it.

## Model

| member | source | states |
|---|---|---|
| `Rules.GlobMatch` | utils/packsource.py:34 | `fnmatch` as it behaves on POSIX, case-sensitive, for patterns whose only wildcard is `*`: a `*` matches any run of characters, dots and slashes included, and every other character matches itself. `GlobLiteral`, `GlobStarSuffix` and `SimplePatternMeaning` reduce it to equality or a suffix test. |
| `Rules.SimplePatternMeaning` | utils/packsource.py:34 | A `*`-only glob matches a name exactly when the name spells the pattern (no `*`) or ends with the text after the leading `*`. |
| `Rules.GlobStarSuffix` | utils/packsource.py:34 | `*suffix` matches exactly the names ending in `suffix`, including names that start with a dot. |
| `Rules.DefaultPatterns` | utils/packsource.py:15 | The nine exclusion globs reject a name exactly when it is `package-lock.json`, `pnpm-lock.yaml` or `pnpm-workspace.yaml`, or ends in `.log`, `.lock`, `.env`, `.test.js`, `.spec.js` or `.map`. |
| `Rules.EndsWithAnyMeaning` | utils/packsource.py:34 | `endswith(tuple(...))` holds exactly when some listed suffix ends the string. |
| `Rules.MatchesAnyMeaning` | utils/packsource.py:34 | The pattern test holds exactly when some listed glob matches the name. |
| `Rules.ContainsAnyMeaning` | utils/packsource.py:27 | The gate and keyword tests hold exactly when some listed substring occurs in the string. |
| `Rules.CaseExample` | utils/packsource.py:34 | The extension test folds case but the glob test does not: `Foo.TEST.JS` has a listed type and escapes `*.test.js`, while `foo.test.js` is caught by it. |
| `Walk.JoinPath` | utils/packsource.py:63 | POSIX `os.path.join` of two parts: an absolute second part replaces the first, otherwise one `/` separates them unless the first is empty or already ends in `/`. `DescendExtends` shows that joining `/`-free names keeps the starting path as a prefix. |
| `Walk.Visits` | utils/packsource.py:24-25 | `os.walk` top-down with `dirs[:]` filtered in place: a directory, then the walks below its children that are not pruned, in listing order. `WalkExactly` characterises its visits as the reachable directories. `VisitsBelow` and `RootVisitedFirst` state where each visit lies and which comes first. |
| `Walk.VisitsBelow` | utils/packsource.py:24-25 | Every visited directory is reached from the walk root through names none of which is pruned. Its path is the root path joined with those names. In a listing without `/` in names, no trail or file name contains `/`. |
| `Walk.RootVisitedFirst` | utils/packsource.py:24-25 | The walk root is visited first, with its own files, whatever its name: pruning applies only to subdirectories. |
| `Walk.WalkExactly` | utils/packsource.py:24-25 | A visit is in the walk exactly when it is the visit of a directory reachable from the root through subdirectory names none of which is pruned. Its path is the root path joined with those names, its trail is those names, and its files are that directory's files. |
| `Walk.WalkComplete` | utils/packsource.py:24-25 | At any depth, a directory reached through names that are not pruned is visited with its own files. |
| `Walk.VisitsReached` | utils/packsource.py:24-25 | Every visit is the visit of some directory reachable through names that are not pruned, and carries that directory's files. |
| `Walk.ChildrenWalked` | utils/packsource.py:24-28 | At every depth, each child of a reachable directory whose name is not pruned is walked with its own files, whether or not its parent passes the gate. |
| `Walk.GateOpenBelowMatchingRoot` | utils/packsource.py:27-28 | When the walk root's own path contains a gate substring, every walked directory passes the gate. |
| `Walk.DescendExtends` | utils/packsource.py:31 | Joining names without `/` onto a path keeps that path as a prefix. |
| `Classifier.RelPath` | utils/packsource.py:31-32 | `os.path.relpath(os.path.join(root, file), root_dir)`: the names from the walk root to the file, joined by `/`. `Strings.SplitJoin` shows these names can be read back from the path. `RecordedPathsPrunedAndGated` relies on that. |
| `Classifier.PathsAt` | utils/packsource.py:31-42 | The `i`-th recorded path is the relative path of the `i`-th considered file. |
| `Classifier.FileRecorded` | utils/packsource.py:24-42 | Completeness end to end: a file of a directory reached from the walk root through names that are not pruned, whose full path passes the gate, is recorded under its relative path. |
| `Classifier.GetAllFiles` | utils/packsource.py:21-44 | The three returned lists hold, in walk order, the relative paths of all files in walked directories that pass the gate. `included` and `excluded` hold those the three-way test admits and rejects. The counts add up, the multisets partition `all`, and each list is an ordered subsequence of `all`. |
| `Classifier.Classify` | utils/packsource.py:34-40 | A file goes to the included list exactly when some listed extension ends its lower-cased name, no exclusion glob matches its name as it is, and some relevant keyword occurs in its lower-cased relative path. Otherwise it goes to the excluded list. |
| `Classifier.GatheredMembership` | utils/packsource.py:27-30 | A file is considered exactly when some walked directory that passes the gate on its full path lists it. The decision recorded for it is the three-way test's. |
| `Classifier.SelectMembership` | utils/packsource.py:34-40 | A considered file is in the included (excluded) list exactly when the three-way test admits (rejects) it. |
| `Classifier.PartitionCounts` | utils/packsource.py:36-42 | Every considered file lands in exactly one of the two lists: the lengths add up to the number considered, and the multisets of paths partition the multiset of all paths. |
| `Classifier.SelectIsSubsequence` | utils/packsource.py:36-42 | Each of the two lists keeps the walk order of the full list. |
| `Classifier.RecordedPathsPrunedAndGated` | utils/packsource.py:24-32 | Read back from a recorded relative path (a tree without `/` in names): its directory components are not pruned names, and the directory they lead to passes the gate. |
| `Imports.TopLevelName` | utils/packsource.py:53 | The name cut from a specifier has no `/` and begins the specifier. It is either the whole specifier or is followed by a `/`. |
| `Imports.Contribution` | utils/packsource.py:52-53 | A specifier contributes at most one name, and none exactly when it starts with `.`. |
| `Imports.Dependencies` | utils/packsource.py:51-53 | No dependency name contains `/` or starts with `.`. |
| `Imports.ExtractDependencies` | utils/packsource.py:46-54 | The loop's set holds the top-level name of every capture that does not start with `.`, and equals the set the captures define. |
| `Imports.DependenciesMembership` | utils/packsource.py:51-53 | A name is a dependency exactly when some capture not starting with `.` has it as its part before the first `/`. |
| `Imports.DependenciesAppend` | utils/packsource.py:51-53 | The dependency set of two runs of captures is the union of their sets, so order and repetition of imports do not matter. |
| `Imports.ExamplePackage` | utils/packsource.py:52-53 | A bare package import such as `react` contributes its own name. |
| `Imports.ExampleRelative` | utils/packsource.py:52 | A relative import such as `./local/file` contributes nothing. |
| `Imports.ExampleDeepImport` | utils/packsource.py:53 | `lodash/debounce` contributes `lodash`. |
| `Imports.ExampleScoped` | utils/packsource.py:53 | `@scope/pkg/sub` contributes only the scope `@scope`. |
| `Imports.ExampleDuplicates` | utils/packsource.py:47-53 | `next/link` and `next/image` together contribute the single name `next`. |
| `Report.Block` | utils/packsource.py:61-71 | Each included file's block begins with its name line and ends with a blank line. |
| `Report.ReportText` | utils/packsource.py:59-75 | The report's text: the included header, one block per included file, the excluded header, one name line per excluded file. `IncludedLayout`, `ExcludedLayout` and `FailedReadReported` locate every part in it. |
| `Report.WriteSourceFiles` | utils/packsource.py:56-77 | The report is: the included header; one block per included file in order, each holding the text read from `root_dir` joined with the path, or the error line; the excluded header; one name line per excluded file. The returned set holds a name exactly when some included file was read and one of its imports contributes it. |
| `Report.DependencyOrigins` | utils/packsource.py:60-71 | Every dependency name of a directory traces back to an included file that was read successfully, and every such file's names are collected. |
| `Report.ReadDependenciesMembership` | utils/packsource.py:60-71 | A name is in a directory's set exactly when some successfully read file contributes it. |
| `Report.UnreadableAddNothing` | utils/packsource.py:69-70 | A file whose read raised adds no dependency names. |
| `Report.IncludedLayout` | utils/packsource.py:59-71 | The i-th included file's block, and within it its name line, sits at that file's offset in the report. Blocks follow one another in order, whether or not the file could be read. |
| `Report.ExcludedLayout` | utils/packsource.py:73-75 | The j-th excluded file's name line sits at its offset, after every included block, and the lines follow one another in order. |
| `Report.FailedReadReported` | utils/packsource.py:69-71 | A file whose read raised still appears in the report, its name line directly followed by the error line with the exception's text. |
| `Report.ProcessDirectory` | utils/packsource.py:79-92 | The returned lists are `get_all_files`' included and excluded lists. No report is written exactly when the walk recorded no file, and then the result is empty. Otherwise the report file `<name>_source_files.txt` holds the report and the dependency set is the report's set. |
| `Report.Combined` | utils/packsource.py:110-122 | The combined file: for each processed directory in order, its heading followed by the blocks of its included files, each read again from the directory path. `CombinedHoldsEverySection` and `CombinedRepeatsEveryBlock` state what it contains. |
| `Report.CombinedRepeatsEveryBlock` | utils/packsource.py:110-122 | With the files unchanged between the two reads, each block a directory's report wrote for an included file, with its name line and its text or error line, also occurs in the combined file. |
| `Report.CombinedHoldsEverySection` | utils/packsource.py:110-122 | Every processed directory's section occurs in the combined file. |
| `Summary.SummaryText` | utils/packsource.py:97-107 | The summary's text: the title, one section per directory with the three counts and the comma-separated dependency names, then the closing list of all names. `GenerateSummary` writes it and `SummaryUnique` shows it is determined by the processed directories. |
| `Summary.GenerateSummary` | utils/packsource.py:94-107 | For each processed directory, in order, the summary gives its name, total = included + excluded, both counts, and the strictly ascending listing of its dependency names. It ends with the strictly ascending listing of the union of all of them, laid out as the summary text. |
| `Summary.AllDependencies` | utils/packsource.py:106 | The union holds every directory's dependency names. |
| `Summary.AllDependenciesSound` | utils/packsource.py:106 | Every name in the union comes from some directory. |
| `Summary.SummaryUnique` | utils/packsource.py:94-107 | The summary is determined by the processed directories: any two summaries of the same input are equal, text included. |
| `Summary.EveryNameOnce` | utils/packsource.py:105-107 | Every dependency name of every directory appears in that directory's line and in the final list, and the final list has no repeats. |
| `Summary.FinalListSound` | utils/packsource.py:106-107 | Every name in the final list was contributed by some directory. |
| `Summary.CountsReadBack` | utils/packsource.py:102-104 | The three printed counts read back as the directory's numbers of files. |
| `StringOrder.SortSet` | utils/packsource.py:105 | `sorted` of a set lists every element exactly once, in strictly ascending order. |
| `StringOrder.SortedListingUnique` | utils/packsource.py:107 | There is only one strictly ascending listing of a set, so the sorted output does not depend on set iteration order. |
| `StringOrder.LessTotal` | utils/packsource.py:105 | Any two different strings are ordered one way or the other. |
| `StringOrder.LessTransitive` | utils/packsource.py:105 | The string order is transitive. |
| `Decimal.Render` | utils/packsource.py:102-104 | A rendered count is a non-empty run of digits with no leading zero. |
| `Decimal.ParseRender` | utils/packsource.py:102-104 | Reading back a rendered count gives the count. |
| `Strings.SplitJoin` | utils/packsource.py:32 | Splitting a `/`-joined relative path on `/` recovers its components when none contains `/`. |
| `Strings.JoinSplit` | utils/packsource.py:53 | Joining the pieces of `s.split('/')` with `/` gives back `s`. |
| `Strings.SplitHead` | utils/packsource.py:53 | The first piece of `s.split('/')` is the longest prefix of `s` without `/`. |
| `Strings.ContainsAt` | utils/packsource.py:35 | `k in s` holds exactly when `k` occurs in `s` at some index. |
| `Strings.LowerContains` | utils/packsource.py:35 | Lower-casing keeps occurrences: a keyword in a path is still found in the lower-cased path once the keyword is lower-cased too. |
| `Scenario.ProjectWalk` | utils/packsource.py:24-25 | On the sample tree the walk yields exactly `web`, `web/app` and `web/app/components`, in that order, with their file listings; the pruned `utils` folder is never entered. |
| `Scenario.RootGateClosed` | utils/packsource.py:27-28 | The sample's walk root `web` fails the gate, so its `board.md` is not considered. |
| `Scenario.CardAdmitted` | utils/packsource.py:34-36 | `trello-card.tsx` in `app/components` has a listed type, matches no glob and has a relevant path, so it is included. |
| `Scenario.TestRejected` | utils/packsource.py:34-40 | `card.test.js` has a listed type but matches `*.test.js`, so it is excluded. |
| `Scenario.ProjectFiles` | utils/packsource.py:21-44 | `get_all_files("web")` on the sample records the card and the test file. The card is included and the test file excluded. `board.md` and `utils/helper.ts` appear nowhere. |

## Left out

- Writing files, creating the output directory, and the output paths built
  from `OUTPUT_DIR` (lines 8-11, 83, 95, 111) are not modelled. The report,
  summary and combined file are modelled as strings. Only the report's file
  name `<dir_name>_source_files.txt` is kept.
- Every `print` call (lines 85-89, 108, 123, 151, 162) is left out: it
  writes to the console only.
- The regular expression `DEPENDENCY_PATTERN` (lines 19, 50) is not
  modelled. The import specifiers it captures are part of a file's
  `Content`, in capture order.
- Reading files is modelled by a `FileSystem` parameter, keyed by
  `os.path.join(root_dir, file)`. `write_source_files` reads each file twice
  (once for its text, once in `extract_dependencies`), and the two reads are
  modelled as one outcome. A file whose first read succeeds and whose second
  raises is not modelled. `combine_all_files` uses the same `FileSystem`, so
  files are taken to be unchanged between the two functions.
- File names that are not valid Unicode are not modelled. On POSIX,
  `os.walk` returns such names with lone surrogates, which a Dafny `char`
  cannot hold. Writing such a name into the report (lines 61 and 75, outside
  the `try`, to a file opened with strict UTF-8 encoding) raises
  `UnicodeEncodeError` and aborts the run; that abort is not modelled.
- `str(e)` of an exception is an opaque string; the kinds of exception are
  not modelled.
- `os.walk` is modelled on an abstract tree given in listing order. Walk
  errors, symbolic links and the operating system's listing order are not
  modelled.
- `os.path.join` is modelled for POSIX. `os.path.relpath` is modelled as
  the `/`-join of the names from the walk root; its normalisation of `.`
  and `..` in `root_dir` is not modelled.
- `str.lower` is modelled for ASCII letters only; Python's Unicode case
  mapping is left out.
- `fnmatch` is modelled for the `*` wildcard, which is the only one the
  script's patterns use. `?` and `[...]` are not modelled. On POSIX
  `fnmatch` does not fold case, and the model does the same.
- The `processed_dirs` dictionary is modelled as a sequence in insertion
  order, which is the order in which Python iterates a dictionary.
- `package_as_payload_plugin` (lines 125-151) and the `__main__` block
  (lines 153-162) are left out. They copy the output files and write a fixed
  plugin stub.

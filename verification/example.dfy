/**
  One run of the script's rules on a small project, worked out in full:
  a file at the walk root is skipped by the gate, a pruned `utils` folder is
  never entered, and the two files of `app/components` are split between the
  lists.
 */
module Scenario {
  import opened Strings
  import opened Rules
  import opened Walk
  import opened Classifier

  /**
    `web/board.md`, `web/app/components/trello-card.tsx`,
    `web/app/components/card.test.js` and `web/app/utils/helper.ts`.
   */
  function Project(): Dir {
    Dir("web", [App()], ["board.md"])
  }

  function App(): Dir {
    Dir("app", [Components(), Utils()], [])
  }

  function Components(): Dir {
    Dir("components", [], ["trello-card.tsx", "card.test.js"])
  }

  function Utils(): Dir {
    Dir("utils", [], ["helper.ts"])
  }

  // ---------------------------------------------------------------------
  // The walk

  /** Joining two plain names puts one `/` between them. */
  lemma JoinPlain(a: string, b: string)
    requires a != [] && a[|a| - 1] != '/'
    requires b != [] && b[0] != '/'
    ensures JoinPath(a, b) == a + "/" + b
  {
    assert b[..1] == [b[0]];
    assert a[|a| - 1..] == [a[|a| - 1]];
  }

  /** A directory without subdirectories is walked as its own visit. */
  lemma LeafVisits(c: Config, d: Dir, path: string, trail: seq<string>)
    requires d.subdirs == []
    ensures Visits(c, d, path, trail) == [Visit(path, trail, d.files)]
  {
    assert ChildVisits(c, d, 0, path, trail) == [];
  }

  /** A directory whose first child is walked and whose other children are pruned. */
  lemma FirstChildVisits(c: Config, d: Dir, path: string, trail: seq<string>)
    requires 1 <= |d.subdirs| <= 2 && !IsPruned(c, d.subdirs[0].name)
    requires |d.subdirs| == 2 ==> IsPruned(c, d.subdirs[1].name)
    ensures Visits(c, d, path, trail) == [Visit(path, trail, d.files)]
      + Visits(c, d.subdirs[0], JoinPath(path, d.subdirs[0].name), trail + [d.subdirs[0].name])
  {
    var k := d.subdirs[0];
    var first := Visits(c, k, JoinPath(path, k.name), trail + [k.name]);
    assert ChildVisits(c, d, |d.subdirs|, path, trail) == [];
    assert ChildVisits(c, d, 1, path, trail) == [];
    assert ChildVisits(c, d, 0, path, trail) == first + [];
  }

  /** The full paths of the two walked directories below the walk root. */
  lemma WalkedPaths()
    ensures JoinPath("web", "app") == "web/app"
    ensures JoinPath("web/app", "components") == "web/app/components"
  {
    JoinPlain("web", "app");
    assert "web" + "/" + "app" == "web/app";
    JoinPlain("web/app", "components");
    assert "web/app" + "/" + "components" == "web/app/components";
  }

  /** `utils` is a pruned folder name; `app` and `components` are not. */
  lemma PrunedNames()
    ensures !IsPruned(Default, App().name) && !IsPruned(Default, Components().name) && IsPruned(Default, Utils().name)
  {
    assert Default.excludeFolders[6] == "utils";
  }

  function ComponentsVisit(): Visit {
    Visit("web/app/components", ["app", "components"], ["trello-card.tsx", "card.test.js"])
  }

  /** Below `app`, `components` is entered and `utils` is pruned. */
  lemma AppWalk()
    ensures Visits(Default, App(), "web/app", ["app"]) == [Visit("web/app", ["app"], []), ComponentsVisit()]
  {
    PrunedNames();
    FirstChildVisits(Default, App(), "web/app", ["app"]);
    WalkedPaths();
    assert ["app"] + ["components"] == ["app", "components"];
    LeafVisits(Default, Components(), "web/app/components", ["app", "components"]);
  }

  /** The walk enters `app` and `app/components` but not the pruned `app/utils`. */
  lemma ProjectWalk()
    ensures WalkTree(Default, "web", Project()) == [
      Visit("web", [], ["board.md"]),
      Visit("web/app", ["app"], []),
      ComponentsVisit()
    ]
  {
    PrunedNames();
    FirstChildVisits(Default, Project(), "web", []);
    WalkedPaths();
    assert [] + ["app"] == ["app"];
    AppWalk();
  }

  // ---------------------------------------------------------------------
  // The gate

  /** The walk root's own path holds none of the gate substrings. */
  lemma RootGateClosed()
    ensures !PassesGate(Default, "web")
  {
    MissingFirstChar("web", "app");
    MissingFirstChar("web", "src");
    MissingFirstChar("web", "pages");
    MissingFirstChar("web", "components");
    MissingFirstChar("web", "lib");
    MissingFirstChar("web", "models");
    MissingFirstChar("web", "api");
  }

  lemma ComponentsGateOpen()
    ensures PassesGate(Default, "web/app/components")
  {
    ContainsInfix("web/", "app", "/components");
    assert "web/" + "app" + "/components" == "web/app/components";
  }

  // ---------------------------------------------------------------------
  // The two files of app/components

  /** A lower-cased name ending in `.tsx` passes the extension test. */
  lemma TsxHasFileType(s: string)
    requires EndsWith(s, ".tsx")
    ensures EndsWithAny(s, Default.fileTypes)
  {
    EndsWithAnyMeaning(s, Default.fileTypes);
    var t := Default.fileTypes[3];
    assert t == ".tsx" && t in Default.fileTypes;
  }

  /** A lower-cased name ending in `.test.js` passes the extension test and matches a pattern. */
  lemma TestJsTypedAndMatched(s: string)
    requires EndsWith(s, ".test.js")
    ensures EndsWithAny(s, Default.fileTypes)
    ensures MatchesAny(Default.excludeFiles, s)
  {
    EndsWithAnyMeaning(s, Default.fileTypes);
    var t := Default.fileTypes[0];
    assert t == ".js" && t in Default.fileTypes;
    assert s[|s| - 3..] == s[|s| - 8..][5..];
    LongSuffixPatterns(s);
    MatchesAnyMeaning(Default.excludeFiles, s);
    assert Default.excludeFiles[4] in Default.excludeFiles;
  }

  /** A path that mentions `trello` passes the relevance test. */
  lemma TrelloRelevant(s: string)
    requires Contains(s, "trello")
    ensures IsRelevant(Default, s)
  {
    LowerContains(s, "trello");
    LowerUnchanged("trello");
    ContainsAnyMeaning(Lower(s), Default.relevantKeywords);
    var k := Default.relevantKeywords[0];
    assert k == "trello" && k in Default.relevantKeywords;
  }

  /** `os.path.relpath` of a file two directories below the walk root. */
  lemma TwoDeep(a: string, b: string, name: string)
    ensures RelPath([a, b], name) == a + "/" + (b + "/" + name)
  {
    var parts := [a, b] + [name];
    assert parts == [a, b, name];
    assert parts[1..] == [b, name] && [b, name][1..] == [name];
    assert Join([b, name], "/") == b + "/" + name;
  }

  /** The relative path of the card component. */
  lemma CardPath()
    ensures RelPath(["app", "components"], "trello-card.tsx") == "app/components/trello-card.tsx"
  {
    TwoDeep("app", "components", "trello-card.tsx");
    assert "components" + "/" + "trello-card.tsx" == "components/trello-card.tsx";
    assert "app" + "/" + "components/trello-card.tsx" == "app/components/trello-card.tsx";
  }

  /** The relative path of the card's test file. */
  lemma TestPath()
    ensures RelPath(["app", "components"], "card.test.js") == "app/components/card.test.js"
  {
    TwoDeep("app", "components", "card.test.js");
    assert "components" + "/" + "card.test.js" == "components/card.test.js";
    assert "app" + "/" + "components/card.test.js" == "app/components/card.test.js";
  }

  lemma CardHasType()
    ensures HasFileType(Default, "trello-card.tsx")
  {
    CardLower();
    CardEndsInTsx();
    TsxHasFileType("trello-card.tsx");
  }

  lemma CardEndsInTsx()
    ensures EndsWith("trello-card.tsx", ".tsx")
  {
    EndsWithBack("trello-card", ".tsx");
    assert "trello-card" + ".tsx" == "trello-card.tsx";
  }

  lemma CardLower()
    ensures Lower("trello-card.tsx") == "trello-card.tsx"
  {
    LowerUnchanged("trello-card.tsx");
  }

  lemma CardMatchesNoPattern()
    ensures !ExcludedByPattern(Default, "trello-card.tsx")
  {
    DefaultPatterns("trello-card.tsx");
  }

  lemma CardRelevant()
    ensures IsRelevant(Default, "app/components/trello-card.tsx")
  {
    CardPathMentionsTrello();
    TrelloRelevant("app/components/trello-card.tsx");
  }

  lemma CardPathMentionsTrello()
    ensures Contains("app/components/trello-card.tsx", "trello")
  {
    ContainsInfix("app/components/", "trello", "-card.tsx");
    assert "app/components/" + "trello" + "-card.tsx" == "app/components/trello-card.tsx";
  }

  /** `trello-card.tsx` passes all three tests. */
  lemma CardAdmitted()
    ensures Classify(Default, ["app", "components"], "trello-card.tsx").included
  {
    CardPath();
    CardHasType();
    CardMatchesNoPattern();
    CardRelevant();
  }

  /** `card.test.js` has a listed extension but matches the `*.test.js` pattern. */
  lemma TestRejected()
    ensures !Classify(Default, ["app", "components"], "card.test.js").included
  {
    TestMatchesPattern();
  }

  lemma TestMatchesPattern()
    ensures ExcludedByPattern(Default, "card.test.js")
  {
    EndsWithBack("card", ".test.js");
    assert "card" + ".test.js" == "card.test.js";
    TestJsTypedAndMatched("card.test.js");
  }

  // ---------------------------------------------------------------------
  // What get_all_files records

  lemma FileEntriesOfTwo(c: Config, trail: seq<string>, a: string, b: string)
    ensures FileEntries(c, trail, [a, b]) == [Classify(c, trail, a), Classify(c, trail, b)]
  {
    assert [a, b][..1] == [a] && [a][..0] == [];
    assert FileEntries(c, trail, [a]) == [Classify(c, trail, a)];
  }

  lemma GatheredOfThree(c: Config, v0: Visit, v1: Visit, v2: Visit)
    ensures Gathered(c, [v0, v1, v2]) == Considered(c, v0) + Considered(c, v1) + Considered(c, v2)
  {
    var vs := [v0, v1, v2];
    assert vs[..2] == [v0, v1] && vs[..2][..1] == [v0] && vs[..2][..1][..0] == [];
    assert Gathered(c, [v0]) == Considered(c, v0);
    assert Gathered(c, [v0, v1]) == Considered(c, v0) + Considered(c, v1);
  }

  /** The entries recorded for the project, in walk order. */
  lemma ProjectEntries()
    ensures WalkEntries(Default, "web", Project()) == [
      Entry(["app", "components"], "trello-card.tsx", true),
      Entry(["app", "components"], "card.test.js", false)
    ]
  {
    ProjectWalk();
    var v0 := Visit("web", [], ["board.md"]);
    var v1 := Visit("web/app", ["app"], []);
    GatheredOfThree(Default, v0, v1, ComponentsVisit());
    RootGateClosed();
    assert Considered(Default, v0) == [];
    assert Considered(Default, v1) == [];
    ComponentsConsidered();
  }

  /** Both files of `app/components` are considered, the card included and the test excluded. */
  lemma ComponentsConsidered()
    ensures Considered(Default, ComponentsVisit()) == [
      Entry(["app", "components"], "trello-card.tsx", true),
      Entry(["app", "components"], "card.test.js", false)
    ]
  {
    ComponentsGateOpen();
    CardAdmitted();
    TestRejected();
    FileEntriesOfTwo(Default, ["app", "components"], "trello-card.tsx", "card.test.js");
  }

  /**
    What `get_all_files("web")` records: `board.md` at the walk root is
    behind a closed gate, `helper.ts` lies under the pruned `utils`,
    `trello-card.tsx` is included and `card.test.js` is excluded by the `*.test.js` pattern.
   */
  lemma ProjectFiles()
    ensures Paths(WalkEntries(Default, "web", Project())) ==
      ["app/components/trello-card.tsx", "app/components/card.test.js"]
    ensures Paths(Select(WalkEntries(Default, "web", Project()), true)) == ["app/components/trello-card.tsx"]
    ensures Paths(Select(WalkEntries(Default, "web", Project()), false)) == ["app/components/card.test.js"]
  {
    ProjectEntries();
    CardPath();
    TestPath();
    SplitOfTwo(Entry(["app", "components"], "trello-card.tsx", true), Entry(["app", "components"], "card.test.js", false));
  }

  /** An included entry followed by an excluded one: each list gets one path. */
  lemma SplitOfTwo(a: Entry, b: Entry)
    requires a.included && !b.included
    ensures Paths([a, b]) == [RelPath(a.trail, a.name), RelPath(b.trail, b.name)]
    ensures Paths(Select([a, b], true)) == [RelPath(a.trail, a.name)]
    ensures Paths(Select([a, b], false)) == [RelPath(b.trail, b.name)]
  {
    SelectOfTwo(a, b);
    PathsOfOne(a);
    PathsOfOne(b);
    PathsOfTwo(a, b);
  }

  lemma SelectOfTwo(a: Entry, b: Entry)
    requires a.included && !b.included
    ensures Select([a, b], true) == [a] && Select([a, b], false) == [b]
  {
    var none: seq<Entry> := [];
    assert none + [a] == [a] && [a] + [b] == [a, b];
    SelectSnoc(none, a, true);
    SelectSnoc(none, a, false);
    SelectSnoc([a], b, true);
    SelectSnoc([a], b, false);
  }

  lemma PathsOfOne(a: Entry)
    ensures Paths([a]) == [RelPath(a.trail, a.name)]
  {
    var none: seq<Entry> := [];
    assert none + [a] == [a];
    PathsSnoc(none, a);
  }

  lemma PathsOfTwo(a: Entry, b: Entry)
    ensures Paths([a, b]) == [RelPath(a.trail, a.name), RelPath(b.trail, b.name)]
  {
    assert [a] + [b] == [a, b];
    PathsOfOne(a);
    PathsSnoc([a], b);
  }
}

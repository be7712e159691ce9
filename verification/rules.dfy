/**
  The classification rules of the packaging script: the five constant lists
  (admitted extensions, pruned folders, excluded file-name patterns, gate
  substrings, relevance keywords) and the per-directory and per-file tests
  built from them.
 */
module Rules {
  import opened Strings

  /** The five rule lists; `Default` holds the values the script uses. */
  datatype Config = Config(
    fileTypes: seq<string>,
    excludeFolders: seq<string>,
    excludeFiles: seq<string>,
    includeSubdirs: seq<string>,
    relevantKeywords: seq<string>)

  const Default: Config := Config(
    [".js", ".jsx", ".ts", ".tsx", ".prisma", ".md", ".scss", ".css", ".mdx"],
    [".next", "node_modules", ".vscode", ".git", ".contentlayer", ".husky", "utils"],
    ["package-lock.json", "*.log", "*.lock", "*.env", "*.test.js", "*.spec.js", "*.map",
     "pnpm-lock.yaml", "pnpm-workspace.yaml"],
    ["app", "src", "pages", "components", "lib", "models", "api"],
    ["trello", "board", "card", "list", "cloudinary", "image", "upload", "prisma", "schema", "model"])

  // ---------------------------------------------------------------------
  // fnmatch

  /**
    `fnmatch.fnmatchcase(name, pattern)` for patterns whose only wildcard is
    `*` (any run of characters, including none, a dot or a slash); every other
    character matches itself.
   */
  predicate GlobMatch(pattern: string, name: string)
    decreases |pattern| + |name|
  {
    if pattern == [] then name == []
    else if pattern[0] == '*' then
      GlobMatch(pattern[1..], name) || (name != [] && GlobMatch(pattern, name[1..]))
    else
      name != [] && name[0] == pattern[0] && GlobMatch(pattern[1..], name[1..])
  }

  /** A pattern is either a literal name or `*` followed by a literal suffix, with no `?` or `[`. */
  predicate SimplePattern(p: string) {
    && '?' !in p && '[' !in p
    && (p == [] || '*' !in p[1..])
  }

  /** A pattern without `*` matches exactly the name it spells. */
  lemma {:induction false} GlobLiteral(p: string, name: string)
    requires '*' !in p
    ensures GlobMatch(p, name) <==> name == p
    decreases |p|
  {
    if p != [] && name != [] {
      GlobLiteral(p[1..], name[1..]);
      assert name == [name[0]] + name[1..] && p == [p[0]] + p[1..];
    }
  }

  /** `*suffix` matches exactly the names that end with `suffix`. */
  lemma {:induction false} GlobStarSuffix(suffix: string, name: string)
    requires '*' !in suffix
    ensures GlobMatch(['*'] + suffix, name) <==> EndsWith(name, suffix)
    decreases |name|
  {
    var p := ['*'] + suffix;
    assert p[1..] == suffix;
    GlobLiteral(suffix, name);
    if name != [] {
      GlobStarSuffix(suffix, name[1..]);
      if |suffix| <= |name[1..]| {
        assert name[|name| - |suffix|..] == name[1..][|name[1..]| - |suffix|..];
      }
      if |suffix| == |name| {
        assert name[|name| - |suffix|..] == name;
      }
    } else {
      assert EndsWith(name, suffix) <==> suffix == [];
    }
  }

  /** Every simple pattern reduces to equality or a suffix test. */
  lemma SimplePatternMeaning(p: string, name: string)
    requires SimplePattern(p)
    ensures p != [] && p[0] == '*' ==> (GlobMatch(p, name) <==> EndsWith(name, p[1..]))
    ensures (p == [] || p[0] != '*') ==> (GlobMatch(p, name) <==> name == p)
  {
    if p != [] && p[0] == '*' {
      GlobStarSuffix(p[1..], name);
      assert ['*'] + p[1..] == p;
    } else {
      if p != [] {
        assert p == [p[0]] + p[1..];
      }
      GlobLiteral(p, name);
    }
  }

  // ---------------------------------------------------------------------
  // The tests

  /** `s.endswith(tuple(suffixes))` */
  predicate EndsWithAny(s: string, suffixes: seq<string>)
    decreases |suffixes|
  {
    suffixes != [] && (EndsWith(s, suffixes[0]) || EndsWithAny(s, suffixes[1..]))
  }

  /** `any(fnmatch.fnmatch(name, p) for p in patterns)` */
  predicate MatchesAny(patterns: seq<string>, name: string)
    decreases |patterns|
  {
    patterns != [] && (GlobMatch(patterns[0], name) || MatchesAny(patterns[1..], name))
  }

  /** `any(k in s for k in keys)` */
  predicate ContainsAny(s: string, keys: seq<string>)
    decreases |keys|
  {
    keys != [] && (Contains(s, keys[0]) || ContainsAny(s, keys[1..]))
  }

  /** `file.lower().endswith(tuple(FILE_TYPES))` */
  predicate HasFileType(c: Config, name: string) {
    EndsWithAny(Lower(name), c.fileTypes)
  }

  /** `any(fnmatch.fnmatch(file, pattern) for pattern in EXCLUDE_FILES)`, case-sensitive as on POSIX. */
  predicate ExcludedByPattern(c: Config, name: string) {
    MatchesAny(c.excludeFiles, name)
  }

  /** `any(keyword in relative_path.lower() for keyword in RELEVANT_FILES)` */
  predicate IsRelevant(c: Config, relPath: string) {
    ContainsAny(Lower(relPath), c.relevantKeywords)
  }

  /** `any(subdir in root for subdir in INCLUDE_SUBDIRS)`, on the full directory path. */
  predicate PassesGate(c: Config, dirPath: string) {
    ContainsAny(dirPath, c.includeSubdirs)
  }

  lemma {:induction false} EndsWithAnyMeaning(s: string, suffixes: seq<string>)
    ensures EndsWithAny(s, suffixes) <==> exists t :: t in suffixes && EndsWith(s, t)
    decreases |suffixes|
  {
    if suffixes != [] {
      EndsWithAnyMeaning(s, suffixes[1..]);
      assert suffixes[0] in suffixes;
      assert forall t :: t in suffixes ==> t == suffixes[0] || t in suffixes[1..];
    }
  }

  lemma {:induction false} MatchesAnyMeaning(patterns: seq<string>, name: string)
    ensures MatchesAny(patterns, name) <==> exists p :: p in patterns && GlobMatch(p, name)
    decreases |patterns|
  {
    if patterns != [] {
      MatchesAnyMeaning(patterns[1..], name);
      assert patterns[0] in patterns;
      assert forall p :: p in patterns ==> p == patterns[0] || p in patterns[1..];
    }
  }

  lemma {:induction false} ContainsAnyMeaning(s: string, keys: seq<string>)
    ensures ContainsAny(s, keys) <==> exists k :: k in keys && Contains(s, k)
    decreases |keys|
  {
    if keys != [] {
      ContainsAnyMeaning(s, keys[1..]);
      assert keys[0] in keys;
      assert forall k :: k in keys ==> k == keys[0] || k in keys[1..];
    }
  }

  /** `d in EXCLUDE_FOLDERS`: exact name comparison. */
  predicate IsPruned(c: Config, dirName: string) {
    dirName in c.excludeFolders
  }

  /** The three-way test that puts a considered file in the included list. */
  predicate Admitted(c: Config, name: string, relPath: string) {
    HasFileType(c, name) && !ExcludedByPattern(c, name) && IsRelevant(c, relPath)
  }

  // ---------------------------------------------------------------------
  // The default rules

  /** The script's exclusion patterns, read as equality and suffix tests. */
  lemma DefaultPatterns(name: string)
    ensures ExcludedByPattern(Default, name) <==>
      || name == "package-lock.json" || name == "pnpm-lock.yaml" || name == "pnpm-workspace.yaml"
      || EndsWith(name, ".log") || EndsWith(name, ".lock") || EndsWith(name, ".env")
      || EndsWith(name, ".test.js") || EndsWith(name, ".spec.js") || EndsWith(name, ".map")
  {
    DefaultPatternsByIndex(name);
    LiteralDefaultPatterns(name);
    SuffixDefaultPatterns(name);
  }

  lemma DefaultPatternsByIndex(name: string)
    ensures MatchesAny(Default.excludeFiles, name) <==>
      || GlobMatch(Default.excludeFiles[0], name) || GlobMatch(Default.excludeFiles[1], name)
      || GlobMatch(Default.excludeFiles[2], name) || GlobMatch(Default.excludeFiles[3], name)
      || GlobMatch(Default.excludeFiles[4], name) || GlobMatch(Default.excludeFiles[5], name)
      || GlobMatch(Default.excludeFiles[6], name) || GlobMatch(Default.excludeFiles[7], name)
      || GlobMatch(Default.excludeFiles[8], name)
  {
    MatchesAnyMeaning(Default.excludeFiles, name);
  }

  lemma LiteralDefaultPatterns(name: string)
    ensures GlobMatch(Default.excludeFiles[0], name) <==> name == "package-lock.json"
    ensures GlobMatch(Default.excludeFiles[7], name) <==> name == "pnpm-lock.yaml"
    ensures GlobMatch(Default.excludeFiles[8], name) <==> name == "pnpm-workspace.yaml"
  {
    GlobLiteral("package-lock.json", name);
    GlobLiteral("pnpm-lock.yaml", name);
    GlobLiteral("pnpm-workspace.yaml", name);
  }

  lemma SuffixDefaultPatterns(name: string)
    ensures GlobMatch(Default.excludeFiles[1], name) <==> EndsWith(name, ".log")
    ensures GlobMatch(Default.excludeFiles[2], name) <==> EndsWith(name, ".lock")
    ensures GlobMatch(Default.excludeFiles[3], name) <==> EndsWith(name, ".env")
    ensures GlobMatch(Default.excludeFiles[4], name) <==> EndsWith(name, ".test.js")
    ensures GlobMatch(Default.excludeFiles[5], name) <==> EndsWith(name, ".spec.js")
    ensures GlobMatch(Default.excludeFiles[6], name) <==> EndsWith(name, ".map")
  {
    ShortSuffixPatterns(name);
    LongSuffixPatterns(name);
  }

  lemma ShortSuffixPatterns(name: string)
    ensures GlobMatch(Default.excludeFiles[1], name) <==> EndsWith(name, ".log")
    ensures GlobMatch(Default.excludeFiles[2], name) <==> EndsWith(name, ".lock")
    ensures GlobMatch(Default.excludeFiles[3], name) <==> EndsWith(name, ".env")
  {
    SuffixPattern(".log", name);
    assert ['*'] + ".log" == "*.log";
    SuffixPattern(".lock", name);
    assert ['*'] + ".lock" == "*.lock";
    SuffixPattern(".env", name);
    assert ['*'] + ".env" == "*.env";
  }

  lemma LongSuffixPatterns(name: string)
    ensures GlobMatch(Default.excludeFiles[4], name) <==> EndsWith(name, ".test.js")
    ensures GlobMatch(Default.excludeFiles[5], name) <==> EndsWith(name, ".spec.js")
    ensures GlobMatch(Default.excludeFiles[6], name) <==> EndsWith(name, ".map")
  {
    SuffixPattern(".test.js", name);
    assert ['*'] + ".test.js" == "*.test.js";
    SuffixPattern(".spec.js", name);
    assert ['*'] + ".spec.js" == "*.spec.js";
    SuffixPattern(".map", name);
    assert ['*'] + ".map" == "*.map";
  }

  lemma SuffixPattern(suffix: string, name: string)
    requires '*' !in suffix
    ensures GlobMatch(['*'] + suffix, name) <==> EndsWith(name, suffix)
  {
    GlobStarSuffix(suffix, name);
  }

  /**
    The extension test folds case and the pattern test does not: an
    upper-case `Foo.TEST.JS` is admitted by type and escapes `*.test.js`,
    while `foo.test.js` is rejected by that pattern.
   */
  lemma CaseExample()
    ensures HasFileType(Default, "Foo.TEST.JS")
    ensures !ExcludedByPattern(Default, "Foo.TEST.JS")
    ensures ExcludedByPattern(Default, "foo.test.js")
  {
    UpperCaseHasFileType();
    UpperCaseEscapesPattern();
    LowerCaseMatchesPattern();
  }

  lemma UpperCaseHasFileType()
    ensures HasFileType(Default, "Foo.TEST.JS")
  {
    EndsWithBack("Foo.TEST", ".JS");
    assert "Foo.TEST" + ".JS" == "Foo.TEST.JS";
    LowerEndsWith("Foo.TEST.JS", ".JS");
    LowerJs();
    JsHasFileType(Lower("Foo.TEST.JS"));
  }

  lemma LowerJs()
    ensures Lower(".JS") == ".js"
  {
  }

  /** A lower-cased name ending in `.js` passes the extension test. */
  lemma JsHasFileType(s: string)
    requires EndsWith(s, ".js")
    ensures EndsWithAny(s, Default.fileTypes)
  {
    EndsWithAnyMeaning(s, Default.fileTypes);
    var t := Default.fileTypes[0];
    assert t == ".js" && t in Default.fileTypes;
  }

  lemma UpperCaseEscapesPattern()
    ensures !ExcludedByPattern(Default, "Foo.TEST.JS")
  {
    DefaultPatterns("Foo.TEST.JS");
  }

  lemma LowerCaseMatchesPattern()
    ensures ExcludedByPattern(Default, "foo.test.js")
  {
    DefaultPatterns("foo.test.js");
    assert EndsWith("foo.test.js", ".test.js");
  }
}

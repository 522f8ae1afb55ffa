/**
 Concrete requests worked through the model, for any base path: a mixed
 request with a missing file, the empty request, a path-traversal attempt,
 a bare root-level name, and the effect of the sentinel file.
 */
module ComboScenarios {
  import opened PhpStrings
  import opened DirPattern
  import opened YuiCombo
  import opened ComboProperties
  import opened ComboRender

  /** An identifier written as a directory, a slash and a name resolves to
      the base path followed by the identifier itself. */
  lemma Resolves(yuiPath: string, script: string, dir: string, name: string)
    requires dir != "" && dir[|dir| - 1] != '/'
    requires name != "" && '/' !in name
    requires script == dir + "/" + name
    ensures Dirname(script) == dir && Basename(script) == name
    ensures FilePath(yuiPath, script) == yuiPath + script
  {
    DirnameBasenameJoin(dir, name);
  }

  /* Facts about the literal identifiers used below. Each is kept in a lemma
     of its own so that no proof has to evaluate `Dirname`, `Basename` and
     `DotCount` on several literals at once. */

  lemma PlainDots() ensures DotCount("b.js") == 1 {}
  lemma VersionedDots() ensures DotCount("d.2.js") == 2 {}
  lemma MissingDots() ensures DotCount("e.js") == 1 {}
  lemma SingleLetterDirs() ensures DirPatternMatches("a") && DirPatternMatches("c") {}
  lemma WordDir() ensures DirPatternMatches("missing") {}

  lemma PlainFacts(yuiPath: string)
    ensures DirPatternMatches(Dirname("a/b.js")) && DotCount(Basename("a/b.js")) == 1
    ensures FilePath(yuiPath, "a/b.js") == yuiPath + "a/b.js"
  {
    Resolves(yuiPath, "a/b.js", "a", "b.js");
    PlainDots();
    SingleLetterDirs();
  }

  lemma VersionedFacts(yuiPath: string)
    ensures DirPatternMatches(Dirname("c/d.2.js")) && DotCount(Basename("c/d.2.js")) == 2
    ensures FilePath(yuiPath, "c/d.2.js") == yuiPath + "c/d.2.js"
  {
    Resolves(yuiPath, "c/d.2.js", "c", "d.2.js");
    VersionedDots();
    SingleLetterDirs();
  }

  lemma MissingFacts(yuiPath: string)
    ensures DirPatternMatches(Dirname("missing/e.js")) && DotCount(Basename("missing/e.js")) == 1
    ensures FilePath(yuiPath, "missing/e.js") == yuiPath + "missing/e.js"
  {
    Resolves(yuiPath, "missing/e.js", "missing", "e.js");
    MissingDots();
    WordDir();
  }

  /** Validating an existing unversioned identifier, an existing versioned
      one and a missing one, in this order, without the sentinel. */
  lemma ThreeKinds(yuiPath: string, existing: set<string>, plain: string, versioned: string, missing: string)
    requires yuiPath + RequireVersionsFile !in existing
    requires IsAccepted(yuiPath, false, existing, plain) && !Versioned(plain)
    requires IsAccepted(yuiPath, false, existing, versioned) && Versioned(versioned)
    requires IsMissing(yuiPath, existing, missing)
    ensures New([plain, versioned, missing], yuiPath, existing).scripts
         == [FilePath(yuiPath, plain), FilePath(yuiPath, versioned)]
    ensures New([plain, versioned, missing], yuiPath, existing).enableCache
    ensures New([plain, versioned, missing], yuiPath, existing).badRequest
  {
    var c := Initial(yuiPath).(requireVersions := false);
    UnversionedFileRule(c, existing, plain);
    var c1 := ValidateEach(c, existing, [plain]);
    VersionedFileAccepted(c1, existing, versioned);
    var c2 := ValidateEach(c1, existing, [versioned]);
    MissingFileFlagged(c2, existing, missing);
    ValidateEachAppend(c, existing, [plain], [versioned]);
    ValidateEachAppend(c, existing, [plain, versioned], [missing]);
    assert [plain] + [versioned] == [plain, versioned];
    assert [plain, versioned] + [missing] == [plain, versioned, missing];
  }

  /** Validating an existing unversioned identifier and an existing versioned
      one with the sentinel present. */
  lemma TwoKindsVersionsRequired(yuiPath: string, existing: set<string>, plain: string, versioned: string)
    requires yuiPath + RequireVersionsFile in existing
    requires IsAccepted(yuiPath, false, existing, plain) && !Versioned(plain)
    requires IsAccepted(yuiPath, true, existing, versioned)
    ensures New([plain, versioned], yuiPath, existing).requireVersions
    ensures New([plain, versioned], yuiPath, existing).scripts == [FilePath(yuiPath, versioned)]
    ensures New([plain, versioned], yuiPath, existing).enableCache
    ensures !New([plain, versioned], yuiPath, existing).badRequest
  {
    var c := Initial(yuiPath).(requireVersions := true);
    UnversionedFileRule(c, existing, plain);
    VersionedFileAccepted(c, existing, versioned);
    ValidateEachAppend(c, existing, [plain], [versioned]);
    assert [plain] + [versioned] == [plain, versioned];
  }

  /** The disk of the scenarios: the two existing scripts under the base path,
      and the sentinel when `sentinel` holds. */
  function Disk(yuiPath: string, sentinel: bool): set<string>
  {
    {yuiPath + "a/b.js", yuiPath + "c/d.2.js"} + (if sentinel then {yuiPath + RequireVersionsFile} else {})
  }

  /** Paths under the same base path differ when their first characters after
      the base path differ. */
  lemma DiskMembers(yuiPath: string, sentinel: bool)
    ensures yuiPath + "a/b.js" in Disk(yuiPath, sentinel)
    ensures yuiPath + "c/d.2.js" in Disk(yuiPath, sentinel)
    ensures yuiPath + "missing/e.js" !in Disk(yuiPath, sentinel)
    ensures yuiPath + RequireVersionsFile in Disk(yuiPath, sentinel) <==> sentinel
  {
    var n := |yuiPath|;
    assert (yuiPath + "a/b.js")[n] == 'a';
    assert (yuiPath + "c/d.2.js")[n] == 'c';
    assert (yuiPath + "missing/e.js")[n] == 'm';
    assert (yuiPath + RequireVersionsFile)[n] == '.';
  }

  /** A request naming a plain script, a versioned script and a missing one,
      without the sentinel: the two existing files are kept in order, the
      cache is enabled by the versioned one, and the missing one raises 400. */
  lemma MixedRequest(yuiPath: string)
    ensures var r := New(["a/b.js", "c/d.2.js", "missing/e.js"], yuiPath, Disk(yuiPath, false));
      && r.scripts == [yuiPath + "a/b.js", yuiPath + "c/d.2.js"]
      && r.enableCache
      && r.badRequest
  {
    DiskMembers(yuiPath, false);
    PlainFacts(yuiPath);
    VersionedFacts(yuiPath);
    MissingFacts(yuiPath);
    ThreeKinds(yuiPath, Disk(yuiPath, false), "a/b.js", "c/d.2.js", "missing/e.js");
  }

  /** The body of the mixed request is the two files' bytes, in request order. */
  lemma MixedRequestBody(yuiPath: string, contents: map<string, seq<byte>>)
    ensures var r := New(["a/b.js", "c/d.2.js", "missing/e.js"], yuiPath, Disk(yuiPath, false));
      Body(contents, r.scripts) == ReadFile(contents, yuiPath + "a/b.js") + ReadFile(contents, yuiPath + "c/d.2.js")
  {
    MixedRequest(yuiPath);
    BodyAppend(contents, [yuiPath + "a/b.js"], [yuiPath + "c/d.2.js"]);
    assert [yuiPath + "a/b.js"] + [yuiPath + "c/d.2.js"] == [yuiPath + "a/b.js", yuiPath + "c/d.2.js"];
  }

  /** The empty request: nothing accepted, no 400, no cache headers, only the
      content type, and an empty body. */
  lemma EmptyRequest(yuiPath: string, existing: set<string>, contents: map<string, seq<byte>>, now: int, httpDate: int -> string)
    ensures var r := Parse("", yuiPath, existing);
      && r.scripts == [] && !r.enableCache && !r.badRequest
      && RenderHeaders(r, now, httpDate) == [ContentTypeHeader]
      && Body(contents, r.scripts) == []
  {
    assert Explode(QuerySeparator, "") == [""];
  }

  /** "../../etc/passwd" has directory "../../etc", which holds dots: it is
      skipped before the disk is consulted, whatever the base path and disk. */
  lemma TraversalRejected(yuiPath: string, existing: set<string>)
    ensures var r := New(["../../etc/passwd"], yuiPath, existing);
      r.scripts == [] && !r.enableCache && !r.badRequest
  {
    DirnameBasenameJoin("../../etc", "passwd");
    assert "../../etc" + "/" + "passwd" == "../../etc/passwd";
    assert Forbidden(Dirname("../../etc/passwd")[0]);
    var c := Initial(yuiPath).(requireVersions := yuiPath + RequireVersionsFile in existing);
    ForbiddenDirectorySkipped(c, existing, "../../etc/passwd");
  }

  /** A bare root-level name such as "yui.js" is never served: its directory
      is ".", which the pattern refuses, even when the file exists. */
  lemma RootLevelRejected(yuiPath: string, existing: set<string>)
    ensures New(["yui.js"], yuiPath, existing).scripts == []
  {
    var c := Initial(yuiPath).(requireVersions := yuiPath + RequireVersionsFile in existing);
    BareNameSkipped(c, existing, "yui.js");
  }

  /** With the sentinel present an existing unversioned script is dropped
      silently while an existing versioned one is still served. */
  lemma SentinelRequest(yuiPath: string)
    ensures var r := New(["a/b.js", "c/d.2.js"], yuiPath, Disk(yuiPath, true));
      && r.requireVersions
      && r.scripts == [yuiPath + "c/d.2.js"]
      && r.enableCache
      && !r.badRequest
  {
    DiskMembers(yuiPath, true);
    PlainFacts(yuiPath);
    VersionedFacts(yuiPath);
    TwoKindsVersionsRequired(yuiPath, Disk(yuiPath, true), "a/b.js", "c/d.2.js");
  }
}

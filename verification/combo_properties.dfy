/**
 Properties of combo validation, stated against an independent description
 of which identifiers are accepted and which are reported missing, and
 proved for the fold over any list of identifiers.
 */
module ComboProperties {
  import opened PhpStrings
  import opened DirPattern
  import opened YuiCombo

  /* ---------------------------------------------------------------------- */
  /* Reference description of validation                                     */
  /* ---------------------------------------------------------------------- */

  /** The identifier passes the two policy rules that do not look at the disk. */
  predicate PassesPolicy(script: string)
  {
    DirPatternMatches(Dirname(script)) && DotCount(Basename(script)) <= 2
  }

  /** The file name carries a version token: exactly two dots. */
  predicate Versioned(script: string)
  {
    DotCount(Basename(script)) == 2
  }

  /** The identifier passes the policy but names a file that does not exist. */
  predicate IsMissing(yuiPath: string, existing: set<string>, script: string)
  {
    PassesPolicy(script) && FilePath(yuiPath, script) !in existing
  }

  /** The identifier passes the policy, its file exists, and it is versioned
      or versions are not required. */
  predicate IsAccepted(yuiPath: string, requireVersions: bool, existing: set<string>, script: string)
  {
    PassesPolicy(script) && FilePath(yuiPath, script) in existing
    && (Versioned(script) || !requireVersions)
  }

  /** The accepted identifiers, as a subsequence of the request. */
  function AcceptedScripts(yuiPath: string, requireVersions: bool, existing: set<string>, scripts: seq<string>): (r: seq<string>)
    ensures |r| <= |scripts|
    ensures forall x :: x in r <==> x in scripts && IsAccepted(yuiPath, requireVersions, existing, x)
  {
    if |scripts| == 0 then []
    else
      var rest := AcceptedScripts(yuiPath, requireVersions, existing, scripts[1..]);
      assert scripts == [scripts[0]] + scripts[1..];
      if IsAccepted(yuiPath, requireVersions, existing, scripts[0]) then [scripts[0]] + rest else rest
  }

  /** Each identifier mapped to the file it resolves to. */
  function Resolve(yuiPath: string, scripts: seq<string>): (files: seq<string>)
    ensures |files| == |scripts|
    ensures forall i :: 0 <= i < |scripts| ==> files[i] == FilePath(yuiPath, scripts[i])
  {
    if |scripts| == 0 then [] else [FilePath(yuiPath, scripts[0])] + Resolve(yuiPath, scripts[1..])
  }

  /* ---------------------------------------------------------------------- */
  /* One identifier                                                          */
  /* ---------------------------------------------------------------------- */

  /** The verdict agrees with the reference description: it accepts exactly
      the accepted identifiers, resolving them to their file and marking the
      versioned ones, and it reports exactly the missing ones. */
  lemma ClassifyMatchesReference(yuiPath: string, requireVersions: bool, existing: set<string>, script: string)
    ensures Classify(yuiPath, requireVersions, existing, script).Accept?
        <==> IsAccepted(yuiPath, requireVersions, existing, script)
    ensures Classify(yuiPath, requireVersions, existing, script).Accept? ==>
        && Classify(yuiPath, requireVersions, existing, script).file == FilePath(yuiPath, script)
        && (Classify(yuiPath, requireVersions, existing, script).versioned <==> Versioned(script))
    ensures Classify(yuiPath, requireVersions, existing, script) == MissingFile
        <==> IsMissing(yuiPath, existing, script)
  {
  }

  /** A directory part that fails the pattern leaves the state untouched:
      the identifier is skipped and no 400 is signalled. */
  lemma InvalidDirectorySkipped(c: Combo, existing: set<string>, script: string)
    requires !DirPatternMatches(Dirname(script))
    ensures ValidateEach(c, existing, [script]) == c
  {
  }

  /** A directory holding a dot (hence any `..`), an upper-case letter or a
      space, or starting with a slash, is skipped whatever exists on disk. */
  lemma ForbiddenDirectorySkipped(c: Combo, existing: set<string>, script: string)
    requires var d := Dirname(script);
      (exists i :: 0 <= i < |d| && Forbidden(d[i])) || (|d| > 0 && d[0] == '/')
    ensures ValidateEach(c, existing, [script]) == c
  {
    DirectoryPolicy(Dirname(script));
  }

  /** A bare name (no slash) has directory "." and is therefore skipped:
      root-level scripts are never served. */
  lemma BareNameSkipped(c: Combo, existing: set<string>, script: string)
    requires '/' !in script
    ensures ValidateEach(c, existing, [script]) == c
  {
    if script != "" {
      BareName(script);
      assert Dirname(script)[0] == '.';
      DirectoryPolicy(Dirname(script));
    }
  }

  /** A file name with more than two dots is skipped whether or not the file
      exists, and no 400 is signalled. */
  lemma TooManyDotsSkipped(c: Combo, existing: set<string>, script: string)
    requires DotCount(Basename(script)) > 2
    ensures ValidateEach(c, existing, [script]) == c
  {
  }

  /** A policy-conforming identifier whose file is missing sets the 400 flag
      and changes nothing else. */
  lemma MissingFileFlagged(c: Combo, existing: set<string>, script: string)
    requires PassesPolicy(script)
    requires FilePath(c.yuiPath, script) !in existing
    ensures ValidateEach(c, existing, [script]) == c.(badRequest := true)
  {
  }

  /** An existing versioned file is accepted, whether or not versions are
      required, and turns the cache headers on. */
  lemma VersionedFileAccepted(c: Combo, existing: set<string>, script: string)
    requires DirPatternMatches(Dirname(script)) && Versioned(script)
    requires FilePath(c.yuiPath, script) in existing
    ensures ValidateEach(c, existing, [script])
         == c.(scripts := c.scripts + [FilePath(c.yuiPath, script)], enableCache := true)
  {
  }

  /** An existing unversioned file (zero or one dot) is rejected exactly when
      versions are required; the rejection signals nothing, and acceptance
      leaves the cache flag as it was. */
  lemma UnversionedFileRule(c: Combo, existing: set<string>, script: string)
    requires DirPatternMatches(Dirname(script)) && DotCount(Basename(script)) <= 1
    requires FilePath(c.yuiPath, script) in existing
    ensures c.requireVersions ==> ValidateEach(c, existing, [script]) == c
    ensures !c.requireVersions ==>
      ValidateEach(c, existing, [script]) == c.(scripts := c.scripts + [FilePath(c.yuiPath, script)])
  {
  }

  /** The falsy identifiers "" and "0" are always skipped: "" has directory ""
      and "0" has directory ".", and neither matches the pattern. */
  lemma FalsyScriptRejected(yuiPath: string, requireVersions: bool, existing: set<string>, script: string)
    requires Falsy(script)
    ensures Classify(yuiPath, requireVersions, existing, script) == InvalidPath
  {
    if script == "0" {
      BareName(script);
      assert Forbidden("."[0]);
      DirectoryPolicy(".");
    }
  }

  /* ---------------------------------------------------------------------- */
  /* Verdicts applied in order                                               */
  /* ---------------------------------------------------------------------- */

  /** The verdict on each identifier, all judged against the same base path,
      sentinel flag and disk. */
  function Verdicts(yuiPath: string, requireVersions: bool, existing: set<string>, scripts: seq<string>): (vs: seq<Verdict>)
    ensures |vs| == |scripts|
  {
    if |scripts| == 0 then []
    else [Classify(yuiPath, requireVersions, existing, scripts[0])] + Verdicts(yuiPath, requireVersions, existing, scripts[1..])
  }

  /** The verdicts applied to a state one after the other. */
  function ApplyAll(c: Combo, vs: seq<Verdict>): Combo
    decreases |vs|
  {
    if |vs| == 0 then c else ApplyAll(Apply(c, vs[0]), vs[1..])
  }

  /** The files of the accepting verdicts, in order. */
  function AcceptedFiles(vs: seq<Verdict>): seq<string>
  {
    if |vs| == 0 then []
    else (if vs[0].Accept? then [vs[0].file] else []) + AcceptedFiles(vs[1..])
  }

  lemma {:induction false} VerdictsIndex(yuiPath: string, requireVersions: bool, existing: set<string>, scripts: seq<string>)
    ensures forall i :: 0 <= i < |scripts| ==>
      Verdicts(yuiPath, requireVersions, existing, scripts)[i] == Classify(yuiPath, requireVersions, existing, scripts[i])
    decreases |scripts|
  {
    if |scripts| > 0 {
      VerdictsIndex(yuiPath, requireVersions, existing, scripts[1..]);
    }
  }

  /** Validation is classification followed by application: the verdict on an
      identifier does not depend on the identifiers before it, because the
      base path and the sentinel flag stay fixed during the loop. */
  lemma {:induction false} ValidateEachIsApplyAll(c: Combo, existing: set<string>, scripts: seq<string>)
    ensures ValidateEach(c, existing, scripts)
         == ApplyAll(c, Verdicts(c.yuiPath, c.requireVersions, existing, scripts))
    decreases |scripts|
  {
    if |scripts| > 0 {
      var v := Classify(c.yuiPath, c.requireVersions, existing, scripts[0]);
      var rest := Verdicts(c.yuiPath, c.requireVersions, existing, scripts[1..]);
      ValidateEachIsApplyAll(Apply(c, v), existing, scripts[1..]);
      assert ([v] + rest)[1..] == rest;
    }
  }

  lemma {:induction false} ApplyAllKeepsConfig(c: Combo, vs: seq<Verdict>)
    ensures ApplyAll(c, vs).yuiPath == c.yuiPath
    ensures ApplyAll(c, vs).requireVersions == c.requireVersions
    decreases |vs|
  {
    if |vs| > 0 {
      ApplyAllKeepsConfig(Apply(c, vs[0]), vs[1..]);
    }
  }

  lemma {:induction false} ApplyAllScripts(c: Combo, vs: seq<Verdict>)
    ensures ApplyAll(c, vs).scripts == c.scripts + AcceptedFiles(vs)
    decreases |vs|
  {
    if |vs| == 0 {
      assert c.scripts + [] == c.scripts;
    } else {
      var here := if vs[0].Accept? then [vs[0].file] else [];
      ApplyAllScripts(Apply(c, vs[0]), vs[1..]);
      assert c.scripts + here + AcceptedFiles(vs[1..]) == c.scripts + (here + AcceptedFiles(vs[1..]));
    }
  }

  lemma {:induction false} ApplyAllCache(c: Combo, vs: seq<Verdict>)
    ensures ApplyAll(c, vs).enableCache
        <==> (c.enableCache || exists i :: 0 <= i < |vs| && vs[i].Accept? && vs[i].versioned)
    decreases |vs|
  {
    if |vs| > 0 {
      ApplyAllCache(Apply(c, vs[0]), vs[1..]);
      if exists i :: 0 <= i < |vs| && vs[i].Accept? && vs[i].versioned {
        var i :| 0 <= i < |vs| && vs[i].Accept? && vs[i].versioned;
        if i > 0 {
          assert vs[1..][i - 1] == vs[i];
        }
      }
    }
  }

  lemma {:induction false} ApplyAllBadRequest(c: Combo, vs: seq<Verdict>)
    ensures ApplyAll(c, vs).badRequest
        <==> (c.badRequest || exists i :: 0 <= i < |vs| && vs[i].MissingFile?)
    decreases |vs|
  {
    if |vs| > 0 {
      ApplyAllBadRequest(Apply(c, vs[0]), vs[1..]);
      if exists i :: 0 <= i < |vs| && vs[i].MissingFile? {
        var i :| 0 <= i < |vs| && vs[i].MissingFile?;
        if i > 0 {
          assert vs[1..][i - 1] == vs[i];
        }
      }
    }
  }

  /** The files the verdicts accept are the accepted identifiers resolved. */
  lemma {:induction false} AcceptedFilesOfVerdicts(yuiPath: string, requireVersions: bool, existing: set<string>, scripts: seq<string>)
    ensures AcceptedFiles(Verdicts(yuiPath, requireVersions, existing, scripts))
         == Resolve(yuiPath, AcceptedScripts(yuiPath, requireVersions, existing, scripts))
    decreases |scripts|
  {
    if |scripts| > 0 {
      var s := scripts[0];
      var vs := Verdicts(yuiPath, requireVersions, existing, scripts);
      var rest := AcceptedScripts(yuiPath, requireVersions, existing, scripts[1..]);
      AcceptedFilesOfVerdicts(yuiPath, requireVersions, existing, scripts[1..]);
      assert vs[1..] == Verdicts(yuiPath, requireVersions, existing, scripts[1..]);
      ClassifyMatchesReference(yuiPath, requireVersions, existing, s);
      if IsAccepted(yuiPath, requireVersions, existing, s) {
        ResolveCons(yuiPath, s, rest);
      }
    }
  }

  lemma ResolveCons(yuiPath: string, script: string, rest: seq<string>)
    ensures Resolve(yuiPath, [script] + rest) == [FilePath(yuiPath, script)] + Resolve(yuiPath, rest)
  {
    assert ([script] + rest)[1..] == rest;
  }

  /* ---------------------------------------------------------------------- */
  /* The whole fold                                                          */
  /* ---------------------------------------------------------------------- */

  /** Validating two lists in a row is validating their concatenation. */
  lemma {:induction false} ValidateEachAppend(c: Combo, existing: set<string>, a: seq<string>, b: seq<string>)
    ensures ValidateEach(c, existing, a + b) == ValidateEach(ValidateEach(c, existing, a), existing, b)
    decreases |a|
  {
    if |a| == 0 {
      assert a + b == b;
    } else {
      assert (a + b)[0] == a[0];
      assert (a + b)[1..] == a[1..] + b;
      var v := Classify(c.yuiPath, c.requireVersions, existing, a[0]);
      ValidateEachAppend(Apply(c, v), existing, a[1..], b);
    }
  }

  /** Validation never changes the base path or the sentinel flag. */
  lemma {:induction false} ValidateEachKeepsConfig(c: Combo, existing: set<string>, scripts: seq<string>)
    ensures ValidateEach(c, existing, scripts).yuiPath == c.yuiPath
    ensures ValidateEach(c, existing, scripts).requireVersions == c.requireVersions
  {
    ValidateEachIsApplyAll(c, existing, scripts);
    ApplyAllKeepsConfig(c, Verdicts(c.yuiPath, c.requireVersions, existing, scripts));
  }

  /** The accepted files are appended to the earlier ones: the old list
      followed by the accepted identifiers resolved to their files, in
      request order. */
  lemma {:induction false} ValidateEachScripts(c: Combo, existing: set<string>, scripts: seq<string>)
    ensures ValidateEach(c, existing, scripts).scripts
         == c.scripts + Resolve(c.yuiPath, AcceptedScripts(c.yuiPath, c.requireVersions, existing, scripts))
  {
    var vs := Verdicts(c.yuiPath, c.requireVersions, existing, scripts);
    ValidateEachIsApplyAll(c, existing, scripts);
    ApplyAllScripts(c, vs);
    AcceptedFilesOfVerdicts(c.yuiPath, c.requireVersions, existing, scripts);
  }

  /** The cache flag is set at the end exactly when it was set before or some
      identifier was accepted with a versioned name; it is never reset. */
  lemma {:induction false} ValidateEachCache(c: Combo, existing: set<string>, scripts: seq<string>)
    ensures ValidateEach(c, existing, scripts).enableCache
        <==> (c.enableCache
               || exists i :: 0 <= i < |scripts|
                    && IsAccepted(c.yuiPath, c.requireVersions, existing, scripts[i])
                    && Versioned(scripts[i]))
  {
    var yp, rv := c.yuiPath, c.requireVersions;
    var vs := Verdicts(yp, rv, existing, scripts);
    ValidateEachIsApplyAll(c, existing, scripts);
    ApplyAllCache(c, vs);
    VerdictsIndex(yp, rv, existing, scripts);
    forall i | 0 <= i < |scripts|
      ensures vs[i].Accept? && vs[i].versioned
          <==> IsAccepted(yp, rv, existing, scripts[i]) && Versioned(scripts[i])
    {
      ClassifyMatchesReference(yp, rv, existing, scripts[i]);
    }
  }

  /** The 400 flag is set at the end exactly when it was set before or some
      identifier passed the policy but named a missing file; later
      identifiers are still validated, and the flag is never reset. */
  lemma {:induction false} ValidateEachBadRequest(c: Combo, existing: set<string>, scripts: seq<string>)
    ensures ValidateEach(c, existing, scripts).badRequest
        <==> (c.badRequest
               || exists i :: 0 <= i < |scripts| && IsMissing(c.yuiPath, existing, scripts[i]))
  {
    var yp, rv := c.yuiPath, c.requireVersions;
    var vs := Verdicts(yp, rv, existing, scripts);
    ValidateEachIsApplyAll(c, existing, scripts);
    ApplyAllBadRequest(c, vs);
    VerdictsIndex(yp, rv, existing, scripts);
    forall i | 0 <= i < |scripts|
      ensures vs[i].MissingFile? <==> IsMissing(yp, existing, scripts[i])
    {
      ClassifyMatchesReference(yp, rv, existing, scripts[i]);
    }
  }

  /** Dropping falsy identifiers before validation changes nothing, since
      validation skips them silently anyway. */
  lemma {:induction false} ValidateEachIgnoresFalsy(c: Combo, existing: set<string>, scripts: seq<string>)
    ensures ValidateEach(c, existing, ArrayFilter(scripts)) == ValidateEach(c, existing, scripts)
    decreases |scripts|
  {
    if |scripts| > 0 {
      var s := scripts[0];
      assert scripts == [s] + scripts[1..];
      if Falsy(s) {
        FalsyScriptRejected(c.yuiPath, c.requireVersions, existing, s);
        ValidateEachIgnoresFalsy(c, existing, scripts[1..]);
      } else {
        var c' := Apply(c, Classify(c.yuiPath, c.requireVersions, existing, s));
        ValidateEachIgnoresFalsy(c', existing, scripts[1..]);
        assert ([s] + ArrayFilter(scripts[1..]))[1..] == ArrayFilter(scripts[1..]);
      }
    }
  }

  /* ---------------------------------------------------------------------- */
  /* Construction and parsing                                                */
  /* ---------------------------------------------------------------------- */

  /** A freshly constructed combo keeps the base path, records whether the
      sentinel exists, and holds the accepted identifiers' files in request
      order. */
  lemma {:induction false} NewCombo(scripts: seq<string>, yuiPath: string, existing: set<string>)
    ensures New(scripts, yuiPath, existing).yuiPath == yuiPath
    ensures New(scripts, yuiPath, existing).requireVersions == (yuiPath + RequireVersionsFile in existing)
    ensures New(scripts, yuiPath, existing).scripts
         == Resolve(yuiPath, AcceptedScripts(yuiPath, yuiPath + RequireVersionsFile in existing, existing, scripts))
  {
    var rv := yuiPath + RequireVersionsFile in existing;
    var c := Combo(yuiPath, [], false, rv, false);
    assert New(scripts, yuiPath, existing) == ValidateEach(c, existing, scripts);
    ValidateEachKeepsConfig(c, existing, scripts);
    ValidateEachScripts(c, existing, scripts);
    assert [] + Resolve(yuiPath, AcceptedScripts(yuiPath, rv, existing, scripts))
        == Resolve(yuiPath, AcceptedScripts(yuiPath, rv, existing, scripts));
  }

  /** A freshly constructed combo sends cache headers exactly when some
      accepted identifier is versioned. */
  lemma {:induction false} NewComboCache(scripts: seq<string>, yuiPath: string, existing: set<string>)
    ensures New(scripts, yuiPath, existing).enableCache
        <==> exists i :: 0 <= i < |scripts|
               && IsAccepted(yuiPath, yuiPath + RequireVersionsFile in existing, existing, scripts[i])
               && Versioned(scripts[i])
  {
    var c := Combo(yuiPath, [], false, yuiPath + RequireVersionsFile in existing, false);
    assert New(scripts, yuiPath, existing) == ValidateEach(c, existing, scripts);
    ValidateEachCache(c, existing, scripts);
  }

  /** A freshly constructed combo is a 400 exactly when some identifier
      passes the policy but names a missing file. */
  lemma {:induction false} NewComboBadRequest(scripts: seq<string>, yuiPath: string, existing: set<string>)
    ensures New(scripts, yuiPath, existing).badRequest
        <==> exists i :: 0 <= i < |scripts| && IsMissing(yuiPath, existing, scripts[i])
  {
    var c := Combo(yuiPath, [], false, yuiPath + RequireVersionsFile in existing, false);
    assert New(scripts, yuiPath, existing) == ValidateEach(c, existing, scripts);
    ValidateEachBadRequest(c, existing, scripts);
  }

  /** A further `addScripts` call on an existing combo looks for the sentinel
      again and appends the newly accepted files after the earlier ones; the
      cache and 400 flags, once set, stay set. */
  lemma {:induction false} AddScriptsExtends(c: Combo, existing: set<string>, scripts: seq<string>)
    ensures var r := AddScripts(c, existing, scripts);
      var rv := c.yuiPath + RequireVersionsFile in existing;
      && r.yuiPath == c.yuiPath
      && r.requireVersions == rv
      && r.scripts == c.scripts + Resolve(c.yuiPath, AcceptedScripts(c.yuiPath, rv, existing, scripts))
      && (c.enableCache ==> r.enableCache)
      && (c.badRequest ==> r.badRequest)
  {
    var c' := c.(requireVersions := c.yuiPath + RequireVersionsFile in existing);
    ValidateEachKeepsConfig(c', existing, scripts);
    ValidateEachScripts(c', existing, scripts);
    ValidateEachCache(c', existing, scripts);
    ValidateEachBadRequest(c', existing, scripts);
  }

  /** Every file a combo will render exists and lies under the base path. */
  lemma {:induction false} NewScriptsExist(scripts: seq<string>, yuiPath: string, existing: set<string>)
    ensures var files := New(scripts, yuiPath, existing).scripts;
      forall i :: 0 <= i < |files| ==> files[i] in existing && yuiPath <= files[i]
  {
    NewCombo(scripts, yuiPath, existing);
    ResolvedAcceptedExist(yuiPath, yuiPath + RequireVersionsFile in existing, existing, scripts);
  }

  lemma ResolvedAcceptedExist(yuiPath: string, requireVersions: bool, existing: set<string>, scripts: seq<string>)
    ensures var files := Resolve(yuiPath, AcceptedScripts(yuiPath, requireVersions, existing, scripts));
      forall i :: 0 <= i < |files| ==> files[i] in existing && yuiPath <= files[i]
  {
    var acc := AcceptedScripts(yuiPath, requireVersions, existing, scripts);
    forall i | 0 <= i < |acc|
      ensures FilePath(yuiPath, acc[i]) in existing && yuiPath <= FilePath(yuiPath, acc[i])
    {
      assert acc[i] in acc;
      FilePathUnderBase(yuiPath, acc[i]);
    }
  }

  lemma FilePathUnderBase(yuiPath: string, script: string)
    ensures yuiPath <= FilePath(yuiPath, script)
  {
    var rest := Dirname(script) + "/" + Basename(script);
    assert FilePath(yuiPath, script) == yuiPath + rest;
  }

  /** When the sentinel exists, only versioned identifiers get through, so
      the cache is enabled exactly when anything is rendered at all. */
  lemma {:induction false} CacheWhenVersionsRequired(scripts: seq<string>, yuiPath: string, existing: set<string>)
    requires yuiPath + RequireVersionsFile in existing
    ensures forall x :: x in AcceptedScripts(yuiPath, true, existing, scripts) ==> Versioned(x)
    ensures New(scripts, yuiPath, existing).enableCache <==> |New(scripts, yuiPath, existing).scripts| > 0
  {
    NewCombo(scripts, yuiPath, existing);
    NewComboCache(scripts, yuiPath, existing);
    var acc := AcceptedScripts(yuiPath, true, existing, scripts);
    if |acc| > 0 {
      assert acc[0] in acc;
      var i :| 0 <= i < |scripts| && scripts[i] == acc[0];
    }
    if exists i :: 0 <= i < |scripts| && IsAccepted(yuiPath, true, existing, scripts[i]) && Versioned(scripts[i]) {
      var i :| 0 <= i < |scripts| && IsAccepted(yuiPath, true, existing, scripts[i]) && Versioned(scripts[i]);
      assert scripts[i] in acc;
    }
  }

  /** `parse` gives back, from a generated query string, exactly the list the
      query was generated from, provided no identifier is falsy or holds `&`. */
  lemma QueryRoundTrip(scripts: seq<string>)
    requires forall i :: 0 <= i < |scripts| ==> QuerySeparator !in scripts[i] && !Falsy(scripts[i])
    ensures QueryScripts(GenerateQueryString(scripts)) == scripts
  {
    if |scripts| == 0 {
      assert Explode(QuerySeparator, "") == [""];
    } else {
      ExplodeImplode(QuerySeparator, scripts);
      ArrayFilterKeepsTruthy(scripts);
    }
  }

  /** Parsing a generated query string builds the same combo as constructing
      it directly from the list, for any identifiers free of `&`: the falsy
      ones that parsing drops would have been skipped by validation. */
  lemma ParseGeneratedQuery(scripts: seq<string>, yuiPath: string, existing: set<string>)
    requires forall i :: 0 <= i < |scripts| ==> QuerySeparator !in scripts[i]
    ensures Parse(GenerateQueryString(scripts), yuiPath, existing) == New(scripts, yuiPath, existing)
  {
    var c := Initial(yuiPath).(requireVersions := yuiPath + RequireVersionsFile in existing);
    if |scripts| == 0 {
      assert Explode(QuerySeparator, "") == [""];
    } else {
      ExplodeImplode(QuerySeparator, scripts);
      ValidateEachIgnoresFalsy(c, existing, scripts);
    }
  }
}

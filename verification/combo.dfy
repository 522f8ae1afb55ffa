/**
 The combo request of `TuentiYuiCombo`: a list of script identifiers is
 validated one by one against a YUI base directory and the accepted files
 are collected, in request order, for rendering.

 The filesystem is abstracted as the set of paths for which `file_exists`
 answers true. The "Status: 400 Bad Request" header that validation sends
 for a missing file is recorded as the `badRequest` flag of the state.
 */
module YuiCombo {
  import opened PhpStrings
  import opened DirPattern

  /** Name of the sentinel file whose presence in the YUI directory makes
      version-stamped file names mandatory. */
  const RequireVersionsFile: string := ".require-versions"

  /** The query-string separator. */
  const QuerySeparator: char := '&'

  /** The state of one combo object. */
  datatype Combo = Combo(
    yuiPath: string,           // base directory, used as a plain string prefix
    scripts: seq<string>,      // accepted files, as full paths, in order
    enableCache: bool,         // far-future cache headers will be sent
    requireVersions: bool,     // the sentinel was present at the last validation
    badRequest: bool)          // a 400 status was signalled for a missing file

  /** The combo object right after its fields are initialised. */
  function Initial(yuiPath: string): Combo
  {
    Combo(yuiPath, [], false, false, false)
  }

  /** What validation decides about one identifier. */
  datatype Verdict =
    | InvalidPath                 // the directory part fails the pattern
    | TooManyVersionTokens        // the file name holds more than two dots
    | MissingFile                 // the resolved file does not exist
    | VersionRequiredButMissing   // unversioned name while versions are required
    | Accept(file: string, versioned: bool)

  /** The file an identifier resolves to: base path, directory part, a slash
      and the file name. */
  function FilePath(yuiPath: string, script: string): string
  {
    yuiPath + Dirname(script) + "/" + Basename(script)
  }

  /** The four rules of validation, applied in order to one identifier. */
  function Classify(yuiPath: string, requireVersions: bool, existing: set<string>, script: string): Verdict
  {
    var name := Basename(script);
    var dir := Dirname(script);
    if !DirPatternMatches(dir) then InvalidPath
    else if DotCount(name) > 2 then TooManyVersionTokens
    else if FilePath(yuiPath, script) !in existing then MissingFile
    else if DotCount(name) == 2 then Accept(FilePath(yuiPath, script), true)
    else if requireVersions then VersionRequiredButMissing
    else Accept(FilePath(yuiPath, script), false)
  }

  /** The effect of one verdict on the combo state. */
  function Apply(c: Combo, v: Verdict): Combo
  {
    match v
    case MissingFile => c.(badRequest := true)
    case Accept(file, versioned) =>
      c.(scripts := c.scripts + [file], enableCache := c.enableCache || versioned)
    case _ => c
  }

  /** The `foreach` of `addScripts`: validate every identifier in turn,
      threading the state from one to the next. */
  function ValidateEach(c: Combo, existing: set<string>, scripts: seq<string>): Combo
    decreases |scripts|
  {
    if |scripts| == 0 then c
    else
      var v := Classify(c.yuiPath, c.requireVersions, existing, scripts[0]);
      ValidateEach(Apply(c, v), existing, scripts[1..])
  }

  /** `addScripts`: look for the sentinel once, then validate the identifiers. */
  function AddScripts(c: Combo, existing: set<string>, scripts: seq<string>): Combo
  {
    var rv := c.yuiPath + RequireVersionsFile in existing;
    ValidateEach(c.(requireVersions := rv), existing, scripts)
  }

  /** The constructor: record the base path and add the given scripts. */
  function New(scripts: seq<string>, yuiPath: string, existing: set<string>): Combo
  {
    AddScripts(Initial(yuiPath), existing, scripts)
  }

  /** `generateQueryString`: the identifiers joined by `&`, unescaped. */
  function GenerateQueryString(scripts: seq<string>): string
  {
    Implode(QuerySeparator, scripts)
  }

  /** The identifier list `parse` hands to the constructor: the `&`-separated
      segments with the falsy ones ("" and "0") dropped. */
  function QueryScripts(queryString: string): seq<string>
  {
    ArrayFilter(Explode(QuerySeparator, queryString))
  }

  /** `parse`: a combo object for the identifiers of a query string. */
  function Parse(queryString: string, yuiPath: string, existing: set<string>): Combo
  {
    New(QueryScripts(queryString), yuiPath, existing)
  }
}

/** Route identity (packages/core/dev/src/base-plugin/routes.ts, the pure part):
    which files are route files, how a route file becomes a `RouteEntry`
    (name, import path, import name, path tokens), the parameter schema and
    the values the API handler derives from it. */
module Routes {
  import opened Wrappers
  import opened Text
  import opened OrderedMap
  import opened PathTokens
  import opened Types
  import Paths

  /** The API and pages folders of the defaults table. */
  const ApiDir: string := "api"
  const PagesDir: string := "pages"

  /** File names the pages glob accepts: `index.{ts,tsx,vue,svelte}`. */
  const PageIndexFiles: seq<string> := ["index.ts", "index.tsx", "index.vue", "index.svelte"]

  /** The resolved plugin options the pipeline reads. */
  datatype Config = Config(
    appRoot: string,
    sourceFolder: string,
    defaults: map<string, string>,
    refineTypeName: string,
    cacheVersion: string)
  {
    /** An absolute application root without a trailing slash, a one-segment
        source folder, and a defaults table that names the API library folder. */
    predicate Valid() {
      && |appRoot| > 0 && appRoot[0] == '/' && appRoot[|appRoot| - 1] != '/'
      && sourceFolder != "" && '/' !in sourceFolder
      && Paths.Known(defaults, Paths.Key("apiLibDir"))
    }
  }

  /** `path.resolve(root, p)` for a normalised `p`: an absolute `p` stands, a relative one goes under `root`. */
  function ResolveAgainst(root: string, p: string): string {
    if p == "" then root else if p[0] == '/' then p else root + "/" + p
  }

  /** A directory segment the globstar `**` walks into: non-empty and not a dot-directory. */
  predicate DirSegment(s: string) {
    s != "" && s[0] != '.'
  }

  // `picomatch.isMatch(join(folder, ...rest), patterns)` for a normalised path, with the
  // patterns `api/**` + `/index.ts` and `pages/**` + `/index.{ts,tsx,vue,svelte}`.
  predicate RouteGlob(folder: string, rest: seq<string>) {
    && |rest| >= 1
    && (forall i :: 0 <= i < |rest| - 1 ==> DirSegment(rest[i]))
    && ((folder == ApiDir && rest[|rest| - 1] == "index.ts")
        || (folder == PagesDir && rest[|rest| - 1] in PageIndexFiles))
  }

  /** `resolveRouteFile(file)`: the route folder and the path within it, when `file`
      is a route file. */
  function ResolveRouteFile(cfg: Config, file: string): Option<(string, string)> {
    var rel := ReplaceFirst(ResolveAgainst(cfg.appRoot, file), cfg.appRoot + "/", "");
    var segs := Split(rel, '/');
    if |segs| < 2 || segs[1] == "" || segs[0] != cfg.sourceFolder || |segs| - 2 < 2 then None
    else if RouteGlob(segs[1], segs[2..]) then Some((segs[1], Join(segs[2..], "/")))
    else None
  }

  /** `path.dirname(p)` for a path without a trailing slash. */
  function DirName(p: string): string {
    var segs := Split(p, '/');
    if |segs| == 1 then "."
    else
      var d := Join(segs[..|segs| - 1], "/");
      if d == "" then "/" else d
  }

  /** `join(appRoot, sourceFolder, folder, file)`. */
  function FileFullpath(cfg: Config, folder: string, file: string): string {
    Paths.JoinPath([cfg.appRoot, cfg.sourceFolder, folder, file])
  }

  // ---------------------------------------------------------------------------
  // Import names: `[importPath.split(/\[/)[0].replace(/^\W+|\W+$/g, "").replace(/\W+/g, "_"), crc(importPath)].join("_")`

  /** `s.split(/\[/)[0]`: the part before the first `[`. */
  function BeforeBracket(s: string): (r: string)
    ensures '[' !in r
  {
    Split(s, '[')[0]
  }

  /** Drops a leading run of non-word characters. */
  function TrimStart(s: string): (r: string)
    ensures |r| <= |s| && r == s[|s| - |r|..]
    ensures |s| > 0 && !IsWordChar(s[0]) ==> |r| < |s|
    ensures r == "" || IsWordChar(r[0])
    ensures r == "" <==> forall i :: 0 <= i < |s| ==> !IsWordChar(s[i])
    decreases |s|
  {
    if |s| == 0 || IsWordChar(s[0]) then s else TrimStart(s[1..])
  }

  /** Drops a trailing run of non-word characters. */
  function TrimEnd(s: string): (r: string)
    ensures |r| <= |s| && r == s[..|r|]
    ensures r == "" || IsWordChar(r[|r| - 1])
    ensures |s| > 0 && IsWordChar(s[0]) ==> r != ""
    decreases |s|
  {
    if |s| == 0 || IsWordChar(s[|s| - 1]) then s else TrimEnd(s[..|s| - 1])
  }

  /** Replaces every maximal run of non-word characters by one `_`. */
  function Collapse(s: string): (r: string)
    ensures AllWord(r)
    ensures |s| > 0 ==> |r| > 0
    decreases |s|
  {
    if |s| == 0 then ""
    else if IsWordChar(s[0]) then [s[0]] + Collapse(s[1..])
    else "_" + Collapse(TrimStart(s))
  }

  function Sanitize(s: string): string {
    Collapse(TrimEnd(TrimStart(s)))
  }

  function ImportName(importPath: string): string {
    Join([Sanitize(BeforeBracket(importPath)), NatToString(Crc32(importPath))], "_")
  }

  /** The `RouteEntry` `resolversFactory` derives for an accepted route file. */
  function DeriveEntry(cfg: Config, folder: string, file: string): RouteEntry {
    var importPath := DirName(file);
    var tokens := Tokens(importPath);
    RouteEntry(
      Join(Origs(tokens), "/"), folder, file, FileFullpath(cfg, folder, file),
      tokens, ImportName(importPath), importPath)
  }

  /** The entries for a list of files, skipping those that are not route files. */
  function Entries(cfg: Config, files: seq<string>): (r: seq<RouteEntry>)
    ensures |r| <= |files|
    ensures forall e :: e in r ==>
      && (e.folder == ApiDir || e.folder == PagesDir) && e.file != ""
      && e == DeriveEntry(cfg, e.folder, e.file)
  {
    if |files| == 0 then [] else FileEntries(cfg, files[0]) + Entries(cfg, files[1..])
  }

  /** The entry of one file: its derived entry when it is a route file, nothing otherwise. */
  function FileEntries(cfg: Config, file: string): (r: seq<RouteEntry>)
    ensures |r| <= 1
    ensures forall e :: e in r ==>
      && (e.folder == ApiDir || e.folder == PagesDir) && e.file != ""
      && e == DeriveEntry(cfg, e.folder, e.file)
  {
    match ResolveRouteFile(cfg, file)
    case None => []
    case Some(ff) => AcceptedFolder(cfg, file); [DeriveEntry(cfg, ff.0, ff.1)]
  }

  // ---------------------------------------------------------------------------
  // Parameter schema and the values derived from it

  /** `pathTokens.flatMap((e) => e.param ? [e.param] : [])`. */
  function ParamsSchema(ts: seq<PathToken>): (r: seq<Param>)
    ensures |r| <= |ts|
  {
    if |ts| == 0 then []
    else (if ts[0].param.Some? then [ts[0].param.value] else []) + ParamsSchema(ts[1..])
  }

  /** `paramsSchema.length ? !paramsSchema.some((e) => e.isRequired) : true`. */
  function OptionalParams(schema: seq<Param>): bool {
    if |schema| > 0 then !(exists i :: 0 <= i < |schema| && schema[i].isRequired) else true
  }

  /** A refinement the extractor reports for the parameter at `index`. */
  datatype Refinement = Refinement(text: string, index: int)

  /** `Array.prototype.at`: a negative index counts from the end. */
  function At<T>(s: seq<T>, i: int): (r: Option<T>)
    ensures r.Some? <==> -|s| <= i < |s|
  {
    if 0 <= i < |s| then Some(s[i])
    else if -|s| <= i < 0 then Some(s[|s| + i])
    else None
  }

  function NumericFrom(refs: seq<Refinement>, schema: seq<Param>): (r: seq<string>)
    ensures |r| <= |refs|
  {
    if |refs| == 0 then []
    else
      var p := At(schema, refs[0].index);
      (if refs[0].text == "number" && p.Some? then [p.value.name] else []) + NumericFrom(refs[1..], schema)
  }

  /** `numericParams`: no refinements give no numeric parameters. */
  function NumericParams(refs: Option<seq<Refinement>>, schema: seq<Param>): seq<string> {
    match refs
    case None => []
    case Some(rs) => NumericFrom(rs, schema)
  }

  /** The `params.id` of an API route: `"ParamsT"` and the checksum of its name. */
  function ParamsId(name: string): (r: string)
    ensures StartsWith(r, "ParamsT") && |r| > 7
  {
    "ParamsT" + NatToString(Crc32(name))
  }

  /** A payload or response type as the overrides reducer sees it. */
  datatype TypeRef = TypeRef(id: string, skipValidation: bool)

  function TypeRefs(payloads: seq<PayloadType>, responses: seq<ResponseType>): (r: seq<TypeRef>)
    ensures |r| == |payloads| + |responses|
  {
    seq(|payloads|, i requires 0 <= i < |payloads| => TypeRef(payloads[i].id, payloads[i].skipValidation))
    + seq(|responses|, i requires 0 <= i < |responses| => TypeRef(responses[i].id, responses[i].skipValidation))
  }

  /** Some type with id `k` skips validation. */
  predicate Skipped(items: seq<TypeRef>, k: string) {
    exists i :: 0 <= i < |items| && items[i].id == k && items[i].skipValidation
  }

  function OverridesFrom(d: Dict<string>, items: seq<TypeRef>): (r: Dict<string>)
    requires d.Valid()
    ensures r.Valid()
    decreases |items|
  {
    if |items| == 0 then d
    else OverridesFrom(if items[0].skipValidation then d.Set(items[0].id, "never") else d, items[1..])
  }

  /** The overrides object handed to the literal-type resolver. */
  function Overrides(items: seq<TypeRef>, refineTypeName: string): Dict<string> {
    OverridesFrom(Dict([refineTypeName], map[refineTypeName := refineTypeName]), items)
  }

  /** The loop that sets `resolveTypes` when some generator asks for resolved types. */
  method ResolveTypesFlag(generators: seq<GeneratorConstructor>) returns (resolveTypes: bool)
    ensures resolveTypes <==> exists i :: 0 <= i < |generators| && generators[i].resolveTypes == Some(true)
  {
    resolveTypes := false;
    for n := 0 to |generators|
      invariant resolveTypes <==> exists i :: 0 <= i < n && generators[i].resolveTypes == Some(true)
    {
      if generators[n].resolveTypes == Some(true) {
        resolveTypes := true;
      }
    }
  }

  // ---------------------------------------------------------------------------
  // Properties

  lemma {:induction false} JoinTwo(a: string, b: string, sep: string)
    ensures Join([a, b], sep) == a + sep + b
  {
    assert [a, b][1..] == [b];
  }

  lemma {:induction false} JoinCons(a: string, rest: seq<string>, sep: string)
    requires |rest| >= 1
    ensures Join([a] + rest, sep) == a + sep + Join(rest, sep)
  {
    assert ([a] + rest)[1..] == rest;
  }

  lemma {:induction false} FirstOccurrenceAtZero(s: string, pat: string)
    requires StartsWith(s, pat)
    ensures ReplaceFirst(s, pat, "") == s[|pat|..]
  {
    assert OccursAt(s, pat, 0);
    assert IndexOf(s, pat) == Some(0);
  }

  /** A route file is accepted exactly when it lies in the configured source
      folder, at least one directory below a route folder, and the route glob
      matches; the entry's full path is then the file itself. */
  lemma {:induction false} RouteFileRoundTrip(cfg: Config, sf: string, folder: string, rest: seq<string>)
    requires cfg.Valid()
    requires sf != "" && '/' !in sf && folder != "" && '/' !in folder
    requires |rest| >= 1 && forall k :: 0 <= k < |rest| ==> rest[k] != "" && '/' !in rest[k]
    ensures var file := cfg.appRoot + "/" + sf + "/" + folder + "/" + Join(rest, "/");
      && (ResolveRouteFile(cfg, file).Some? <==> sf == cfg.sourceFolder && |rest| >= 2 && RouteGlob(folder, rest))
      && (ResolveRouteFile(cfg, file).Some? ==>
            ResolveRouteFile(cfg, file).value == (folder, Join(rest, "/"))
            && FileFullpath(cfg, folder, Join(rest, "/")) == file)
  {
    var joined := Join(rest, "/");
    var file := cfg.appRoot + "/" + sf + "/" + folder + "/" + joined;
    RelativeSegments(cfg.appRoot, sf, folder, rest);
    assert rest[0] != "" && |joined| > 0 by {
      JoinNonEmpty(rest, "/");
    }
    if ResolveRouteFile(cfg, file).Some? {
      FileFullpathExpand(cfg, folder, joined);
    }
  }

  /** Below the root, the segments of such a file are the source folder, the route
      folder and the rest. */
  lemma {:induction false} RelativeSegments(appRoot: string, sf: string, folder: string, rest: seq<string>)
    requires |appRoot| > 0 && appRoot[0] == '/'
    requires '/' !in sf && '/' !in folder
    requires |rest| >= 1 && forall k :: 0 <= k < |rest| ==> '/' !in rest[k]
    ensures var file := appRoot + "/" + sf + "/" + folder + "/" + Join(rest, "/");
      Split(ReplaceFirst(ResolveAgainst(appRoot, file), appRoot + "/", ""), '/') == [sf, folder] + rest
  {
    var joined := Join(rest, "/");
    var file := appRoot + "/" + sf + "/" + folder + "/" + joined;
    var rel := sf + "/" + folder + "/" + joined;
    StripsRoot(appRoot, rel, file);
    var parts := [sf, folder] + rest;
    JoinSegments(sf, folder, rest);
    SplitJoin(parts, '/');
  }

  /** An absolute file below the root loses exactly the root and its slash. */
  lemma StripsRoot(appRoot: string, rel: string, file: string)
    requires |appRoot| > 0 && appRoot[0] == '/'
    requires file == appRoot + "/" + rel
    ensures ReplaceFirst(ResolveAgainst(appRoot, file), appRoot + "/", "") == rel
  {
    var pat := appRoot + "/";
    assert ResolveAgainst(appRoot, file) == file;
    assert file == pat + rel;
    assert StartsWith(file, pat) by {
      assert file[..|pat|] == pat;
    }
    FirstOccurrenceAtZero(file, pat);
    assert file[|pat|..] == rel;
  }

  lemma {:induction false} JoinSegments(sf: string, folder: string, rest: seq<string>)
    requires |rest| >= 1
    ensures Join([sf, folder] + rest, "/") == sf + "/" + folder + "/" + Join(rest, "/")
  {
    var tail := [folder] + rest;
    JoinCons(folder, rest, "/");
    JoinCons(sf, tail, "/");
    assert [sf, folder] + rest == [sf] + tail;
  }

  /** With every part non-empty, the full path is the parts joined with `/`. */
  lemma {:induction false} FileFullpathExpand(cfg: Config, folder: string, file: string)
    requires cfg.Valid() && folder != "" && file != ""
    ensures FileFullpath(cfg, folder, file) == cfg.appRoot + "/" + cfg.sourceFolder + "/" + folder + "/" + file
  {
    var four := [cfg.appRoot, cfg.sourceFolder, folder, file];
    Paths.NonEmptyAll(four);
    assert four[1..] == [cfg.sourceFolder, folder, file];
    assert four[1..][1..] == [folder, file];
    JoinTwo(folder, file, "/");
    assert Join(four[1..], "/") == cfg.sourceFolder + "/" + (folder + "/" + file);
    assert Paths.JoinPath(four) == cfg.appRoot + "/" + (cfg.sourceFolder + "/" + (folder + "/" + file));
  }

  /** An API route and a page route never share a full path. */
  lemma {:induction false} FullpathFolderDistinct(cfg: Config, f1: string, f2: string)
    requires cfg.Valid() && f1 != "" && f2 != ""
    ensures FileFullpath(cfg, ApiDir, f1) != FileFullpath(cfg, PagesDir, f2)
  {
    FileFullpathExpand(cfg, ApiDir, f1);
    FileFullpathExpand(cfg, PagesDir, f2);
    var n := |cfg.appRoot| + |cfg.sourceFolder| + 2;
    assert FileFullpath(cfg, ApiDir, f1)[n] == 'a';
    assert FileFullpath(cfg, PagesDir, f2)[n] == 'p';
  }

  lemma {:induction false} JoinNonEmpty(parts: seq<string>, sep: string)
    requires |parts| >= 1 && parts[0] != ""
    ensures |Join(parts, sep)| > 0
  {
    if |parts| > 1 {
      assert Join(parts, sep) == parts[0] + sep + Join(parts[1..], sep);
    }
  }

  /** An accepted file lies in a route folder, at a non-empty path. */
  lemma AcceptedFolder(cfg: Config, file: string)
    requires ResolveRouteFile(cfg, file).Some?
    ensures var (folder, f) := ResolveRouteFile(cfg, file).value;
      (folder == ApiDir || folder == PagesDir) && f != ""
  {
    AcceptedShape(cfg, file);
  }

  /** An accepted route file sits in the API or the pages folder, one directory or
      more below it, and its import path is that directory: the path within the
      folder is the import path, `/`, and an index file. */
  lemma {:induction false} AcceptedShape(cfg: Config, file: string)
    requires ResolveRouteFile(cfg, file).Some?
    ensures var (folder, f) := ResolveRouteFile(cfg, file).value;
      && (folder == ApiDir || folder == PagesDir)
      && |Split(f, '/')| >= 2
      && (forall k :: 0 <= k < |Split(f, '/')| - 1 ==> DirSegment(Split(f, '/')[k]))
      && f == DirName(f) + "/" + Split(f, '/')[|Split(f, '/')| - 1]
      && (if folder == ApiDir then Split(f, '/')[|Split(f, '/')| - 1] == "index.ts"
          else Split(f, '/')[|Split(f, '/')| - 1] in PageIndexFiles)
  {
    var rel := ReplaceFirst(ResolveAgainst(cfg.appRoot, file), cfg.appRoot + "/", "");
    var segs := Split(rel, '/');
    var rest := segs[2..];
    var f := Join(rest, "/");
    assert ResolveRouteFile(cfg, file) == Some((segs[1], f)) && RouteGlob(segs[1], rest);
    assert forall k :: 0 <= k < |rest| ==> '/' !in rest[k] by {
      forall k | 0 <= k < |rest| ensures '/' !in rest[k] {
        assert rest[k] == segs[k + 2];
      }
    }
    JoinedDirName(rest);
  }

  /** Slash-free segments joined with `/` split back into themselves, and the
      directory part of the joined path is all but the last segment. */
  lemma {:induction false} JoinedDirName(rest: seq<string>)
    requires |rest| >= 2 && rest[0] != ""
    requires forall k :: 0 <= k < |rest| ==> '/' !in rest[k]
    ensures Split(Join(rest, "/"), '/') == rest
    ensures Join(rest, "/") == DirName(Join(rest, "/")) + "/" + rest[|rest| - 1]
  {
    var f := Join(rest, "/");
    SplitJoin(rest, '/');
    var n := |rest|;
    var dirs := rest[..n - 1];
    assert rest == dirs + [rest[n - 1]];
    Paths.JoinAppend(dirs, [rest[n - 1]], "/");
    assert Join(dirs, "/") != "" by {
      JoinNonEmpty(dirs, "/");
    }
  }

  /** The entries of a file list are those of its parts, in order: with
      `Worker.EntriesSingle` this makes `Entries` the `flatMap` over the files of
      each route file's entry. */
  lemma {:induction false} EntriesAppend(cfg: Config, a: seq<string>, b: seq<string>)
    ensures Entries(cfg, a + b) == Entries(cfg, a) + Entries(cfg, b)
    decreases |a|
  {
    if |a| == 0 {
      assert a + b == b;
    } else {
      var ab := a + b;
      assert ab[0] == a[0] && ab[1..] == a[1..] + b;
      EntriesAppend(cfg, a[1..], b);
      assert Entries(cfg, ab) == FileEntries(cfg, a[0]) + Entries(cfg, a[1..] + b);
    }
  }

  /** An entry is derived exactly when some listed file is a route file that
      resolves to the entry's folder and file; other files contribute nothing. */
  lemma {:induction false} EntriesMembers(cfg: Config, files: seq<string>, e: RouteEntry)
    ensures e in Entries(cfg, files) <==>
      exists i :: 0 <= i < |files| && Yields(cfg, files[i], e)
    decreases |files|
  {
    if |files| > 0 {
      EntriesMembers(cfg, files[1..], e);
      FileEntriesMembers(cfg, files[0], e);
      assert e in Entries(cfg, files) <==> e in FileEntries(cfg, files[0]) || e in Entries(cfg, files[1..]);
      if exists i :: 0 <= i < |files[1..]| && Yields(cfg, files[1..][i], e) {
        var i :| 0 <= i < |files[1..]| && Yields(cfg, files[1..][i], e);
        assert files[i + 1] == files[1..][i];
      }
      if exists i :: 0 <= i < |files| && Yields(cfg, files[i], e) {
        var i :| 0 <= i < |files| && Yields(cfg, files[i], e);
        if i > 0 {
          assert files[1..][i - 1] == files[i];
        }
      }
    }
  }

  /** `file` is a route file in `e`'s folder, at `e`'s path, and `e` is its entry. */
  predicate Yields(cfg: Config, file: string, e: RouteEntry) {
    ResolveRouteFile(cfg, file) == Some((e.folder, e.file)) && e == DeriveEntry(cfg, e.folder, e.file)
  }

  lemma FileEntriesMembers(cfg: Config, file: string, e: RouteEntry)
    ensures e in FileEntries(cfg, file) <==> Yields(cfg, file, e)
  {
  }

  /** A route's name is its import path: the tokens' raw segments joined back. */
  lemma EntryNameIsImportPath(cfg: Config, folder: string, file: string)
    ensures DeriveEntry(cfg, folder, file).name == DeriveEntry(cfg, folder, file).importPath
    ensures |DeriveEntry(cfg, folder, file).pathTokens| == |Split(DirName(file), '/')|
  {
    TokensFollowSegments(DirName(file));
  }

  /** The part before the first `[` is a prefix of the path, and the whole path
      when it has no `[`. */
  lemma {:induction false} BeforeBracketPrefix(s: string)
    ensures StartsWith(s, BeforeBracket(s))
    ensures '[' !in s ==> BeforeBracket(s) == s
  {
    JoinSplit(s, '[');
    var parts := Split(s, '[');
    if |parts| > 1 {
      assert s == parts[0] + "[" + Join(parts[1..], "[");
    }
    if '[' !in s {
      SplitNoSep(s, '[');
    }
  }

  lemma {:induction false} CollapseWord(s: string)
    requires AllWord(s)
    ensures Collapse(s) == s
    decreases |s|
  {
    if |s| > 0 {
      CollapseWord(s[1..]);
      assert s == [s[0]] + s[1..];
    }
  }

  /** Sanitising keeps an identifier as it is, produces only word characters,
      and is therefore idempotent; it is empty exactly when the input has no
      word character. */
  lemma {:induction false} SanitizeIdempotent(s: string)
    ensures AllWord(Sanitize(s))
    ensures AllWord(s) ==> Sanitize(s) == s
    ensures Sanitize(Sanitize(s)) == Sanitize(s)
    ensures Sanitize(s) == "" <==> forall i :: 0 <= i < |s| ==> !IsWordChar(s[i])
  {
    var t := Sanitize(s);
    if AllWord(s) {
      CollapseWord(s);
    }
    CollapseWord(t);
  }

  /** Word characters stay word characters when concatenated. */
  lemma AllWordConcat(a: string, b: string)
    requires AllWord(a) && AllWord(b)
    ensures AllWord(a + b)
  {
    forall i | 0 <= i < |a + b| ensures IsWordChar((a + b)[i]) {
      if i >= |a| {
        assert (a + b)[i] == b[i - |a|];
      }
    }
  }

  lemma {:induction false} LabelledChecksum(a: string, b: string)
    requires AllWord(a) && AllWord(b)
    ensures AllWord(Join([a, b], "_"))
    ensures EndsWith(Join([a, b], "_"), "_" + b)
  {
    JoinTwo(a, b, "_");
    AllWordConcat(a, "_");
    AllWordConcat(a + "_", b);
    var r := a + "_" + b;
    assert r[|r| - |"_" + b|..] == "_" + b;
  }

  /** An import name consists of word characters only and ends in `_` followed by
      the checksum of the import path. */
  lemma {:induction false} ImportNameIsIdentifier(importPath: string)
    ensures AllWord(ImportName(importPath))
    ensures EndsWith(ImportName(importPath), "_" + NatToString(Crc32(importPath)))
  {
    SanitizeIdempotent(BeforeBracket(importPath));
    var b := NatToString(Crc32(importPath));
    assert AllWord(b);
    LabelledChecksum(Sanitize(BeforeBracket(importPath)), b);
  }

  lemma {:induction false} SchemaAppend(a: seq<PathToken>, b: seq<PathToken>)
    ensures ParamsSchema(a + b) == ParamsSchema(a) + ParamsSchema(b)
    decreases |a|
  {
    if |a| > 0 {
      assert (a + b)[1..] == a[1..] + b;
      SchemaAppend(a[1..], b);
    } else {
      assert a + b == b;
    }
  }

  /** The schema holds exactly the tokens' parameters. */
  lemma {:induction false} SchemaMembers(ts: seq<PathToken>)
    ensures forall p :: p in ParamsSchema(ts) <==> exists i :: 0 <= i < |ts| && ts[i].param == Some(p)
    decreases |ts|
  {
    if |ts| > 0 {
      SchemaMembers(ts[1..]);
      forall p ensures p in ParamsSchema(ts) <==> exists i :: 0 <= i < |ts| && ts[i].param == Some(p) {
        if p in ParamsSchema(ts) {
          if !(ts[0].param == Some(p)) {
            assert p in ParamsSchema(ts[1..]);
            var i :| 0 <= i < |ts[1..]| && ts[1..][i].param == Some(p);
            assert ts[i + 1].param == Some(p);
          }
        }
        if exists i :: 0 <= i < |ts| && ts[i].param == Some(p) {
          var i :| 0 <= i < |ts| && ts[i].param == Some(p);
          if i > 0 {
            assert ts[1..][i - 1].param == Some(p);
          }
        }
      }
    }
  }

  /** `optionalParams` holds exactly when no token is a required parameter. */
  lemma {:induction false} OptionalIffNoRequired(ts: seq<PathToken>)
    ensures OptionalParams(ParamsSchema(ts)) <==>
      forall i :: 0 <= i < |ts| && ts[i].param.Some? ==> !ts[i].param.value.isRequired
  {
    var schema := ParamsSchema(ts);
    SchemaMembers(ts);
    if OptionalParams(schema) {
      forall i | 0 <= i < |ts| && ts[i].param.Some? ensures !ts[i].param.value.isRequired {
        var p := ts[i].param.value;
        assert p in schema;
        var j :| 0 <= j < |schema| && schema[j] == p;
      }
    } else {
      var j :| 0 <= j < |schema| && schema[j].isRequired;
      assert schema[j] in schema;
      var i :| 0 <= i < |ts| && ts[i].param == Some(schema[j]);
    }
  }

  lemma {:induction false} NumericAppend(a: seq<Refinement>, b: seq<Refinement>, schema: seq<Param>)
    ensures NumericFrom(a + b, schema) == NumericFrom(a, schema) + NumericFrom(b, schema)
    decreases |a|
  {
    if |a| > 0 {
      assert (a + b)[1..] == a[1..] + b;
      NumericAppend(a[1..], b, schema);
    } else {
      assert a + b == b;
    }
  }

  /** One refinement contributes its parameter's name exactly when its text is
      `number` and its index (negative from the end) falls inside the schema;
      so `numericParams` lists those names in refinement order. */
  lemma {:induction false} NumericParamsSpec(rs: seq<Refinement>, r: Refinement, schema: seq<Param>)
    ensures NumericFrom(rs + [r], schema) == NumericFrom(rs, schema) +
      (if r.text == "number" && -|schema| <= r.index < |schema| then [At(schema, r.index).value.name] else [])
    ensures NumericParams(None, schema) == []
  {
    NumericAppend(rs, [r], schema);
    assert [r][1..] == [];
  }

  lemma OverridesFromSpec(d: Dict<string>, items: seq<TypeRef>)
    requires d.Valid()
    ensures var r := OverridesFrom(d, items);
      && |d.keys| <= |r.keys| && r.keys[..|d.keys|] == d.keys
      && (forall k :: k in r.vals <==> k in d.vals || Skipped(items, k))
      && (forall k :: Skipped(items, k) ==> r.vals[k] == "never")
      && (forall k :: k in d.vals && !Skipped(items, k) ==> r.vals[k] == d.vals[k])
  {
    OverridesKeys(d, items);
    OverridesValues(d, items);
  }

  /** The skipping types' `never` entries come after the keys already there. */
  lemma {:induction false} OverridesKeys(d: Dict<string>, items: seq<TypeRef>)
    requires d.Valid()
    ensures var r := OverridesFrom(d, items);
      |d.keys| <= |r.keys| && r.keys[..|d.keys|] == d.keys
    decreases |items|
  {
    if |items| > 0 {
      var d' := if items[0].skipValidation then d.Set(items[0].id, "never") else d;
      OverridesKeys(d', items[1..]);
      var r := OverridesFrom(d, items);
      assert r == OverridesFrom(d', items[1..]);
      if items[0].skipValidation && items[0].id !in d.vals {
        assert d'.keys == d.keys + [items[0].id];
      } else {
        assert d'.keys == d.keys;
      }
      PrefixOfPrefix(d.keys, d'.keys, r.keys);
    }
  }

  lemma PrefixOfPrefix<T>(a: seq<T>, b: seq<T>, c: seq<T>)
    requires |a| <= |b| <= |c| && c[..|b|] == b && b[..|a|] == a
    ensures c[..|a|] == a
  {
    assert c[..|a|] == c[..|b|][..|a|];
  }

  /** A key has a value afterwards exactly when it had one or a type skips it. */
  lemma {:induction false} OverridesDomain(d: Dict<string>, items: seq<TypeRef>)
    requires d.Valid()
    ensures forall k :: k in OverridesFrom(d, items).vals <==> k in d.vals || Skipped(items, k)
    decreases |items|
  {
    if |items| > 0 {
      var d' := if items[0].skipValidation then d.Set(items[0].id, "never") else d;
      OverridesDomain(d', items[1..]);
      assert OverridesFrom(d, items) == OverridesFrom(d', items[1..]);
      SkippedCons(items);
      forall k ensures k in d'.vals <==> k in d.vals || (items[0].id == k && items[0].skipValidation) {
      }
    }
  }

  /** Skipped types map to `never`; every other key keeps its value. */
  lemma {:induction false} OverridesValues(d: Dict<string>, items: seq<TypeRef>)
    requires d.Valid()
    ensures forall k :: k in OverridesFrom(d, items).vals <==> k in d.vals || Skipped(items, k)
    ensures forall k :: Skipped(items, k) ==> OverridesFrom(d, items).vals[k] == "never"
    ensures forall k :: k in d.vals && !Skipped(items, k) ==> OverridesFrom(d, items).vals[k] == d.vals[k]
    decreases |items|
  {
    OverridesDomain(d, items);
    if |items| > 0 {
      var d' := if items[0].skipValidation then d.Set(items[0].id, "never") else d;
      OverridesValues(d', items[1..]);
      var r := OverridesFrom(d, items);
      assert r == OverridesFrom(d', items[1..]);
      SkippedCons(items);
      forall k | k in d.vals && !Skipped(items, k) ensures r.vals[k] == d.vals[k] {
        assert d'.vals[k] == d.vals[k];
      }
    }
  }

  /** A type id is skipped by a list exactly when its head or its tail skips it. */
  lemma SkippedCons(items: seq<TypeRef>)
    requires |items| > 0
    ensures forall k :: Skipped(items, k) <==> (items[0].id == k && items[0].skipValidation) || Skipped(items[1..], k)
  {
    forall k ensures Skipped(items, k) <==> (items[0].id == k && items[0].skipValidation) || Skipped(items[1..], k) {
      if Skipped(items, k) {
        var i :| 0 <= i < |items| && items[i].id == k && items[i].skipValidation;
        if i > 0 {
          assert items[1..][i - 1] == items[i];
        }
      }
      if Skipped(items[1..], k) {
        var i :| 0 <= i < |items[1..]| && items[1..][i].id == k && items[1..][i].skipValidation;
        assert items[i + 1] == items[1..][i];
      }
    }
  }

  /** The overrides map starts with the refinement type name, maps every
      validation-skipping type id to `never`, and maps the refinement type name
      to itself unless a skipping type has that id. */
  lemma OverridesSpec(items: seq<TypeRef>, refineTypeName: string)
    ensures var r := Overrides(items, refineTypeName);
      && |r.keys| >= 1 && r.keys[0] == refineTypeName
      && (forall k :: k in r.vals <==> k == refineTypeName || Skipped(items, k))
      && (forall k :: Skipped(items, k) ==> r.vals[k] == "never")
      && (!Skipped(items, refineTypeName) ==> r.vals[refineTypeName] == refineTypeName)
  {
    var d := Dict([refineTypeName], map[refineTypeName := refineTypeName]);
    assert d.Valid();
    OverridesFromSpec(d, items);
  }
}

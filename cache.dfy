/** The per-route content-hash cache (packages/core/dev/src/base-plugin/cache.ts).
    A route's cache record keeps the hash of the route file, salted with the
    extra context, and one hash per file the route references. A record is
    reused only while all of those hashes still match the files on disk. */
module Cache {
  import opened Wrappers
  import opened Text
  import opened OrderedMap
  import opened PathTokens
  import opened Types
  import opened Routes
  import Paths

  /** The record kept in `cache.json`. The fields whose absence validation checks
      are optional; referenced files are `[path, hash]` pairs in the order of the
      stored object's keys. */
  datatype StoredCache = StoredCache(
    hash: Option<int>,
    referencedFiles: Option<seq<(string, int)>>,
    typeDeclarations: Option<seq<TypeDeclaration>>,
    params: ApiParams,
    methods: seq<string>,
    numericParams: seq<string>,
    payloadTypes: seq<PayloadType>,
    responseTypes: seq<ResponseType>)

  /** What `JSON.parse` makes of a cache file. */
  datatype CacheText = Unparsable | Parsed(record: StoredCache)

  /** The record's fields the API handler supplies to `persistCache`. */
  datatype CacheData = CacheData(
    params: ApiParams,
    methods: seq<string>,
    typeDeclarations: seq<TypeDeclaration>,
    numericParams: seq<string>,
    payloadTypes: seq<PayloadType>,
    responseTypes: seq<ResponseType>)

  /** What `cacheFactory` closes over: the cache file, the route file, the
      application root, the cache version and the `resolveTypes` extra context
      (absent for referenced files). */
  datatype CacheHandle = CacheHandle(
    cacheFile: string,
    fileFullpath: string,
    appRoot: string,
    version: string,
    extra: Option<bool>)

  /** `cacheFactory(route, {appRoot, sourceFolder, extraContext: {resolveTypes}})`:
      the cache file is `apiLibDir/<importPath>/cache.json` under the root. */
  function CacheFactory(cfg: Config, entry: RouteEntry, resolveTypes: bool): (h: CacheHandle)
    requires cfg.Valid()
    ensures h.fileFullpath == entry.fileFullpath && h.appRoot == cfg.appRoot
    ensures h.cacheFile == Paths.Resolve(Some(cfg.appRoot), cfg.sourceFolder, cfg.defaults, Paths.Key("apiLibDir"),
                                         [entry.importPath, "cache.json"])
    ensures h.version == cfg.cacheVersion && h.extra == Some(resolveTypes)
  {
    CacheHandle(
      Paths.Resolve(Some(cfg.appRoot), cfg.sourceFolder, cfg.defaults, Paths.Key("apiLibDir"),
                    [entry.importPath, "cache.json"]),
      entry.fileFullpath, cfg.appRoot, cfg.cacheVersion, Some(resolveTypes))
  }

  /** The text `JSON.stringify({...extraContext, [cacheVersion]: content})` hashes.
      String escaping is not modelled. */
  function HashInput(extra: Option<bool>, version: string, content: string): string {
    var salt := match extra
      case None => ""
      case Some(b) => "\"resolveTypes\":" + (if b then "true" else "false") + ",";
    "{" + salt + "\"" + version + "\":\"" + content + "\"}"
  }

  /** `generateFileHash(file, extraContext)`: 0 for a missing or empty file. */
  function FileHash(files: map<string, string>, path: string, version: string, extra: Option<bool>): (r: nat)
    ensures path !in files || files[path] == "" ==> r == 0
  {
    if path !in files || files[path] == "" then 0
    else Crc32(HashInput(extra, version, files[path]))
  }

  /** `identicalHashSum`. */
  predicate IdenticalHashSum(a: int, b: int) {
    a == b
  }

  function RouteHash(h: CacheHandle, files: map<string, string>): nat {
    FileHash(files, h.fileFullpath, h.version, h.extra)
  }

  /** The hash a stored referenced-file key should have: its file resolved against the root. */
  function RefHash(h: CacheHandle, files: map<string, string>, key: string): nat {
    FileHash(files, ResolveAgainst(h.appRoot, key), h.version, None)
  }

  /** Every stored referenced-file hash matches its file. */
  predicate RefsFresh(h: CacheHandle, refs: seq<(string, int)>, files: map<string, string>) {
    forall j :: 0 <= j < |refs| ==> IdenticalHashSum(refs[j].1, RefHash(h, files, refs[j].0))
  }

  /** `validateCache(cache)`: the record itself when it is complete and every hash
      matches, nothing otherwise. */
  function Validated(h: CacheHandle, c: StoredCache, files: map<string, string>): (r: Option<StoredCache>)
    ensures r.Some? ==> r.value == c && c.typeDeclarations.Some? && c.referencedFiles.Some?
    ensures c.hash.None? || c.hash.value == 0 ==> r.None?
  {
    if c.hash.None? || c.hash.value == 0 then None
    else if c.typeDeclarations.None? || c.referencedFiles.None? then None
    else if !IdenticalHashSum(c.hash.value, RouteHash(h, files)) then None
    else if !RefsFresh(h, c.referencedFiles.value, files) then None
    else Some(c)
  }

  /** `getCache({validate})`: a missing or unparsable cache file gives nothing. */
  function GetCacheSpec(h: CacheHandle, caches: map<string, CacheText>, files: map<string, string>,
                        validate: bool): Option<StoredCache>
  {
    if h.cacheFile !in caches then None
    else match caches[h.cacheFile]
      case Unparsable => None
      case Parsed(c) => if validate then Validated(h, c, files) else Some(c)
  }

  // ---------------------------------------------------------------------------
  // Referenced-file keys

  /** The key `persistCache` stores for a referenced file, as written:
      `file.replace(`${appRoot}/`, "")` removes the first occurrence of the root
      and a slash wherever it is. */
  function StripAsWritten(appRoot: string, file: string): string {
    ReplaceFirst(file, appRoot + "/", "")
  }

  /** The key as intended: the root and a slash are removed only as a prefix. */
  function StripRoot(appRoot: string, file: string): (k: string)
    ensures StartsWith(file, appRoot + "/") ==> k == StripAsWritten(appRoot, file)
  {
    if StartsWith(file, appRoot + "/") then
      FirstOccurrenceAtZero(file, appRoot + "/");
      file[|appRoot| + 1..]
    else file
  }

  /** Which key `persistCache` stores for a referenced file: the one the source
      computes, or the intended one. */
  datatype KeyRule = AsWritten | Intended

  function RefKey(rule: KeyRule, appRoot: string, file: string): string {
    match rule
    case AsWritten => StripAsWritten(appRoot, file)
    case Intended => StripRoot(appRoot, file)
  }

  /** An absolute path with no empty segment and no trailing slash, as Node reports them. */
  predicate Normal(f: string) {
    && |f| > 1 && f[0] == '/' && f[|f| - 1] != '/'
    && forall i :: 0 <= i < |f| - 1 ==> !(f[i] == '/' && f[i + 1] == '/')
  }

  /** The referenced-file hashes `persistCache` collects, keyed as intended unless
      the rule says otherwise. */
  function RefHashes(h: CacheHandle, referenced: seq<string>, files: map<string, string>,
                     rule: KeyRule := Intended): (d: Dict<int>)
    ensures d.Valid()
  {
    if |referenced| == 0 then Empty()
    else
      var last := referenced[|referenced| - 1];
      RefHashes(h, referenced[..|referenced| - 1], files, rule)
        .Set(RefKey(rule, h.appRoot, last), FileHash(files, last, h.version, None))
  }

  /** The `for` loop of `persistCache`: each referenced file's hash, stored under its key. */
  method CollectRefHashes(h: CacheHandle, referenced: seq<string>, files: map<string, string>) returns (refs: Dict<int>)
    ensures refs == RefHashes(h, referenced, files)
  {
    refs := Empty();
    for i := 0 to |referenced|
      invariant refs == RefHashes(h, referenced[..i], files)
    {
      ghost var done := referenced[..i + 1];
      assert done[..i] == referenced[..i] && done[i] == referenced[i];
      assert RefKey(Intended, h.appRoot, referenced[i]) == StripRoot(h.appRoot, referenced[i]);
      assert RefHashes(h, done, files) == RefHashes(h, referenced[..i], files)
        .Set(StripRoot(h.appRoot, referenced[i]), FileHash(files, referenced[i], h.version, None));
      refs := refs.Set(StripRoot(h.appRoot, referenced[i]), FileHash(files, referenced[i], h.version, None));
    }
    assert referenced[..|referenced|] == referenced;
  }

  /** A dictionary's `Object.entries`. */
  function DictEntries(d: Dict<int>): (r: seq<(string, int)>)
    requires forall k :: k in d.keys ==> k in d.vals
    ensures |r| == |d.keys|
    ensures forall j :: 0 <= j < |r| ==> r[j] == (d.keys[j], d.vals[d.keys[j]])
  {
    seq(|d.keys|, j requires 0 <= j < |d.keys| => (d.keys[j], d.vals[d.keys[j]]))
  }

  /** The record `persistCache(data, referencedFiles)` stores and returns. */
  function Persisted(h: CacheHandle, data: CacheData, referenced: seq<string>, files: map<string, string>,
                     rule: KeyRule := Intended): StoredCache {
    var refs := RefHashes(h, referenced, files, rule);
    StoredCache(
      Some(RouteHash(h, files) as int), Some(DictEntries(refs)), Some(data.typeDeclarations),
      data.params, data.methods, data.numericParams, data.payloadTypes, data.responseTypes)
  }

  /** The file system the pipeline reads and writes: source files by absolute
      path, parsed cache files, rendered `types.ts` files, and the log of
      `refreshSourceFile` calls. */
  class Disk {
    var files: map<string, string>
    var caches: map<string, CacheText>
    var typesFiles: map<string, TypesFile>
    var refreshed: seq<string>

    constructor(files: map<string, string>, caches: map<string, CacheText>)
      ensures this.files == files && this.caches == caches
      ensures typesFiles == map[] && refreshed == []
    {
      this.files := files;
      this.caches := caches;
      typesFiles := map[];
      refreshed := [];
    }

    /** `getCache({validate})`. */
    method GetCache(h: CacheHandle, validate: bool) returns (r: Option<StoredCache>)
      ensures r == GetCacheSpec(h, caches, files, validate)
    {
      if h.cacheFile in caches && caches[h.cacheFile].Parsed? {
        var c := caches[h.cacheFile].record;
        if validate {
          r := ValidateCache(h, Some(c));
        } else {
          r := Some(c);
        }
      } else {
        r := None;
      }
    }

    /** `validateCache(cache)`: the checks in order, returning early on the first mismatch. */
    method ValidateCache(h: CacheHandle, cache: Option<StoredCache>) returns (r: Option<StoredCache>)
      ensures r == (if cache.None? then None else Validated(h, cache.value, files))
    {
      if cache.None? || cache.value.hash.None? || cache.value.hash.value == 0 {
        return None;
      }
      var c := cache.value;
      if c.typeDeclarations.None? || c.referencedFiles.None? {
        return None;
      }
      var hash := FileHash(files, h.fileFullpath, h.version, h.extra);
      if !IdenticalHashSum(c.hash.value, hash) {
        return None;
      }
      var refs := c.referencedFiles.value;
      for j := 0 to |refs|
        invariant forall i :: 0 <= i < j ==> IdenticalHashSum(refs[i].1, RefHash(h, files, refs[i].0))
      {
        if !IdenticalHashSum(refs[j].1, FileHash(files, ResolveAgainst(h.appRoot, refs[j].0), h.version, None)) {
          return None;
        }
      }
      return cache;
    }

    /** `persistCache(data)`: hashes the route file and every referenced file and
        writes the record to the cache file. */
    method PersistCache(h: CacheHandle, data: CacheData, referenced: seq<string>) returns (c: StoredCache)
      modifies this
      ensures c == Persisted(h, data, referenced, files)
      ensures caches == old(caches)[h.cacheFile := Parsed(c)]
      ensures files == old(files) && typesFiles == old(typesFiles) && refreshed == old(refreshed)
    {
      var hash := FileHash(files, h.fileFullpath, h.version, h.extra);
      var refs := CollectRefHashes(h, referenced, files);
      c := StoredCache(Some(hash), Some(DictEntries(refs)), Some(data.typeDeclarations),
                       data.params, data.methods, data.numericParams, data.payloadTypes, data.responseTypes);
      caches := caches[h.cacheFile := Parsed(c)];
    }

    /** `refreshSourceFile(file)`: the extractor's view of `file` is reloaded. */
    method Refresh(file: string)
      modifies this
      ensures refreshed == old(refreshed) + [file]
      ensures files == old(files) && caches == old(caches) && typesFiles == old(typesFiles)
    {
      refreshed := refreshed + [file];
    }

    /** `renderToFile(path, template, data)` for a route's `types.ts`. */
    method WriteTypes(path: string, content: TypesFile)
      modifies this
      ensures typesFiles == old(typesFiles)[path := content]
      ensures files == old(files) && caches == old(caches) && refreshed == old(refreshed)
    {
      typesFiles := typesFiles[path := content];
    }
  }

  /** A route's rendered `types.ts`: the types template with its inputs, or the
      resolved-types template with the resolver's output. */
  datatype TypesFile =
    | TypesTemplate(
        params: ApiParams,
        schema: seq<(Param, Option<Refinement>)>,
        typeDeclarations: seq<TypeDeclaration>,
        payloadTypes: seq<PayloadType>,
        responseTypes: seq<ResponseType>)
    | ResolvedTemplate(resolvedTypes: seq<ResolvedType>)

  // ---------------------------------------------------------------------------
  // Properties

  /** Stripping the root as intended and resolving back against the root gives
      the file again. */
  lemma {:induction false} StripResolve(appRoot: string, f: string)
    requires Normal(f)
    ensures ResolveAgainst(appRoot, StripRoot(appRoot, f)) == f
  {
    var pat := appRoot + "/";
    if StartsWith(f, pat) {
      var k := f[|pat|..];
      assert |k| > 0;
      assert k[0] != '/' by {
        assert f[|appRoot|] == '/';
        assert f[|appRoot| + 1] == k[0];
      }
      assert f == pat + k;
    }
  }

  lemma {:induction false} RefHashesFresh(h: CacheHandle, referenced: seq<string>, files: map<string, string>)
    requires forall i :: 0 <= i < |referenced| ==> Normal(referenced[i])
    ensures var d := RefHashes(h, referenced, files);
      forall k :: k in d.vals ==> d.vals[k] == RefHash(h, files, k)
    decreases |referenced|
  {
    if |referenced| > 0 {
      var last := referenced[|referenced| - 1];
      RefHashesFresh(h, referenced[..|referenced| - 1], files);
      StripResolve(h.appRoot, last);
    }
  }

  /** The intended keys of referenced files: each stored key resolves back to the
      file it came from, and every referenced file has a key. */
  lemma {:induction false} RefHashesKeys(h: CacheHandle, referenced: seq<string>, files: map<string, string>)
    requires forall i :: 0 <= i < |referenced| ==> Normal(referenced[i])
    ensures var d := RefHashes(h, referenced, files);
      && (forall i :: 0 <= i < |referenced| ==> StripRoot(h.appRoot, referenced[i]) in d.vals)
      && (forall k :: k in d.vals ==> exists i :: 0 <= i < |referenced| && StripRoot(h.appRoot, referenced[i]) == k)
    decreases |referenced|
  {
    if |referenced| > 0 {
      var init := referenced[..|referenced| - 1];
      RefHashesKeys(h, init, files);
      var d := RefHashes(h, referenced, files);
      forall k | k in d.vals ensures exists i :: 0 <= i < |referenced| && StripRoot(h.appRoot, referenced[i]) == k {
        if k != StripRoot(h.appRoot, referenced[|referenced| - 1]) {
          var i :| 0 <= i < |init| && StripRoot(h.appRoot, init[i]) == k;
          assert referenced[i] == init[i];
        }
      }
      forall i | 0 <= i < |referenced| ensures StripRoot(h.appRoot, referenced[i]) in d.vals {
        if i < |referenced| - 1 {
          assert referenced[i] == init[i];
        }
      }
    }
  }

  lemma {:induction false} PersistedRefsFresh(h: CacheHandle, referenced: seq<string>, files: map<string, string>)
    requires forall i :: 0 <= i < |referenced| ==> Normal(referenced[i])
    ensures RefsFresh(h, DictEntries(RefHashes(h, referenced, files)), files)
  {
    RefHashesFresh(h, referenced, files);
    var d := RefHashes(h, referenced, files);
    var es := DictEntries(d);
    forall j | 0 <= j < |es| ensures IdenticalHashSum(es[j].1, RefHash(h, files, es[j].0)) {
      assert d.keys[j] in d.vals;
    }
  }

  /** Round trip: a record persisted while the route file hashes to a non-zero
      value validates, unchanged, as long as no file changes. */
  lemma {:induction false} PersistThenValidate(h: CacheHandle, data: CacheData, referenced: seq<string>,
                                               files: map<string, string>)
    requires RouteHash(h, files) != 0
    requires forall i :: 0 <= i < |referenced| ==> Normal(referenced[i])
    ensures Validated(h, Persisted(h, data, referenced, files), files) == Some(Persisted(h, data, referenced, files))
  {
    PersistedRefsFresh(h, referenced, files);
  }

  /** Round trip through the cache file: after persisting, a validated read returns
      the record just written. */
  lemma {:induction false} PersistThenGetCache(h: CacheHandle, data: CacheData, referenced: seq<string>,
                                               files: map<string, string>, caches: map<string, CacheText>)
    requires RouteHash(h, files) != 0
    requires forall i :: 0 <= i < |referenced| ==> Normal(referenced[i])
    ensures var c := Persisted(h, data, referenced, files);
      GetCacheSpec(h, caches[h.cacheFile := Parsed(c)], files, true) == Some(c)
  {
    PersistThenValidate(h, data, referenced, files);
  }

  /** Changing the route file so that its salted hash changes invalidates the record. */
  lemma RouteChangeInvalidates(h: CacheHandle, data: CacheData, referenced: seq<string>,
                               files: map<string, string>, files': map<string, string>)
    requires RouteHash(h, files') != RouteHash(h, files)
    ensures Validated(h, Persisted(h, data, referenced, files), files') == None
  {
  }

  /** Changing any referenced file so that its hash changes invalidates the record. */
  lemma {:induction false} ReferenceChangeInvalidates(h: CacheHandle, data: CacheData, referenced: seq<string>,
                                                      files: map<string, string>, files': map<string, string>, i: nat)
    requires forall n :: 0 <= n < |referenced| ==> Normal(referenced[n])
    requires i < |referenced|
    requires FileHash(files', referenced[i], h.version, None) != FileHash(files, referenced[i], h.version, None)
    ensures Validated(h, Persisted(h, data, referenced, files), files') == None
  {
    var f := referenced[i];
    var d := RefHashes(h, referenced, files);
    RefHashesKeys(h, referenced, files);
    RefHashesFresh(h, referenced, files);
    var k := StripRoot(h.appRoot, f);
    assert k in d.vals;
    StripResolve(h.appRoot, f);
    assert RefHash(h, files', k) != d.vals[k];
    var j :| 0 <= j < |d.keys| && d.keys[j] == k;
    var es := DictEntries(d);
    assert es[j] == (k, d.vals[k]);
    assert !RefsFresh(h, es, files');
  }

  /** An empty or missing route file never validates; a missing referenced file
      fails its check exactly when its stored hash is non-zero. */
  lemma EmptyRouteNeverValidates(h: CacheHandle, c: StoredCache, files: map<string, string>)
    requires h.fileFullpath !in files || files[h.fileFullpath] == ""
    ensures Validated(h, c, files) == None
  {
  }

  lemma MissingReferenceFreshIffZero(h: CacheHandle, files: map<string, string>, key: string, stored: int)
    requires ResolveAgainst(h.appRoot, key) !in files
    ensures IdenticalHashSum(stored, RefHash(h, files, key)) <==> stored == 0
  {
  }

  /** The record `getCache` hands out without validation is the parsed one, unchecked;
      an absent or unparsable file gives nothing either way. */
  lemma GetCacheWithoutValidation(h: CacheHandle, caches: map<string, CacheText>, files: map<string, string>)
    ensures h.cacheFile in caches && caches[h.cacheFile].Parsed? ==>
      GetCacheSpec(h, caches, files, false) == Some(caches[h.cacheFile].record)
    ensures (h.cacheFile !in caches || caches[h.cacheFile].Unparsable?) ==>
      GetCacheSpec(h, caches, files, false) == None && GetCacheSpec(h, caches, files, true) == None
  {
  }

  // ---------------------------------------------------------------------------
  // The key stripping as written

  /** With the root `/app`, a referenced file `/srv/app/types.ts` outside it is
      stored under `/srvtypes.ts`, which does not resolve back to the file. */
  lemma {:induction false} ReplaceAtFirstOccurrence(s: string, pat: string, k: nat)
    requires OccursAt(s, pat, k)
    requires forall j :: 0 <= j < k ==> !OccursAt(s, pat, j)
    ensures ReplaceFirst(s, pat, "") == s[..k] + s[k + |pat|..]
  {
    assert IndexOf(s, pat) == Some(k);
  }

  /** As written, a file outside the root in whose path the root and a slash occur
      further in loses that occurrence, and its key no longer resolves back to it. */
  lemma {:induction false} StripAsWrittenMisses(appRoot: string, f: string, k: nat)
    requires |f| > 0 && f[0] == '/' && k > 0
    requires OccursAt(f, appRoot + "/", k)
    requires forall j :: 0 <= j < k ==> !OccursAt(f, appRoot + "/", j)
    ensures StripAsWritten(appRoot, f) == f[..k] + f[k + |appRoot| + 1..]
    ensures ResolveAgainst(appRoot, StripAsWritten(appRoot, f)) != f
  {
    ReplaceAtFirstOccurrence(f, appRoot + "/", k);
    var key := StripAsWritten(appRoot, f);
    assert key[0] == '/';
    assert |key| < |f|;
  }

  /** With the root `/app`, the referenced file `/srv/app/types.ts` is stored under
      `/srvtypes.ts`. */
  lemma StripAsWrittenExample(appRoot: string, f: string)
    requires appRoot == "/app" && f == "/srv/app/types.ts"
    ensures StripAsWritten(appRoot, f) == "/srvtypes.ts"
    ensures ResolveAgainst(appRoot, StripAsWritten(appRoot, f)) != f
  {
    var pat := appRoot + "/";
    assert pat == "/app/";
    assert f[4..9] == pat;
    assert f[1] == 's' && f[2] == 'r' && f[3] == 'v';
    forall j | 0 <= j < 4 ensures !OccursAt(f, pat, j) {
      assert f[j..j + 5][1] == f[j + 1];
    }
    StripAsWrittenMisses(appRoot, f, 4);
    assert f[..4] == "/srv" && f[9..] == "types.ts";
  }

  /** As written, a referenced file outside the root in whose path the root and a
      slash occur further in is checked under its mangled path: when nothing
      exists there and the file itself hashes to non-zero, the record persisted from
      unchanged files fails validation. */
  lemma {:induction false} StripAsWrittenNeverValidates(h: CacheHandle, data: CacheData, f: string,
                                                        files: map<string, string>, k: nat)
    requires |f| > 0 && f[0] == '/' && k > 0
    requires OccursAt(f, h.appRoot + "/", k)
    requires forall j :: 0 <= j < k ==> !OccursAt(f, h.appRoot + "/", j)
    requires ResolveAgainst(h.appRoot, StripAsWritten(h.appRoot, f)) !in files
    requires FileHash(files, f, h.version, None) != 0
    ensures Validated(h, Persisted(h, data, [f], files, AsWritten), files) == None
  {
    StripAsWrittenMisses(h.appRoot, f, k);
    var key := StripAsWritten(h.appRoot, f);
    var hash := FileHash(files, f, h.version, None);
    assert [f][..0] == [] && [f][0] == f;
    assert RefHashes(h, [], files, AsWritten) == Empty();
    assert RefKey(AsWritten, h.appRoot, f) == key;
    var d := RefHashes(h, [f], files, AsWritten);
    assert d == Empty().Set(key, hash);
    var es := DictEntries(d);
    assert es[0] == (key, hash);
    assert RefHash(h, files, key) == 0;
    assert !RefsFresh(h, es, files);
  }
}

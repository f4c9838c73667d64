/** Route resolvers (packages/core/dev/src/base-plugin/routes.ts, the stateful
    part): `resolversFactory` builds one resolver per route file, API routes
    first, and each resolver's handler turns the route into a
    `RouteResolverEntry`. The API handler reuses a validated cache record or
    extracts the route's signature, writes its `types.ts` and persists a new
    record. */
module Resolver {
  import opened Wrappers
  import opened Text
  import opened OrderedMap
  import opened PathTokens
  import opened Types
  import opened Routes
  import opened Cache
  import Paths

  /** What the type extractor reports about an API route module. */
  datatype Signature = Signature(
    typeDeclarations: seq<TypeDeclaration>,
    paramsRefinements: Option<seq<Refinement>>,
    methods: seq<string>,
    payloadTypes: seq<PayloadType>,
    responseTypes: seq<ResponseType>,
    referencedFiles: Option<seq<string>>)

  /** The code the handler calls but that is not part of this model: the
      signature extractor (which fails when the route module cannot be analysed)
      and the literal-type resolver. */
  datatype Collaborators = Collaborators(
    extract: (RouteEntry, bool, map<string, string>) -> Result<Signature>,
    resolveLiteral: (TypesFile, Dict<string>, seq<string>) -> seq<ResolvedType>)

  /** What every handler closes over. */
  datatype Env = Env(cfg: Config, resolveTypes: bool, collab: Collaborators)

  /** A resolver: the route's name and the entry its handler works on. */
  datatype RouteResolver = RouteResolver(name: string, entry: RouteEntry)

  /** `resolvedTypes?.find((e) => e.name === id)`. */
  function FindResolved(resolved: Option<seq<ResolvedType>>, id: string): (r: Option<ResolvedType>)
    ensures resolved.None? ==> r.None?
    ensures r.Some? ==> r.value.name == id && r.value in resolved.value
    ensures resolved.Some? && r.None? ==> forall t :: t in resolved.value ==> t.name != id
    decreases if resolved.Some? then |resolved.value| else 0
  {
    match resolved
    case None => None
    case Some(ts) =>
      if |ts| == 0 then None
      else if ts[0].name == id then Some(ts[0])
      else FindResolved(Some(ts[1..]), id)
  }

  /** The route `handler` assembles from a cache record. */
  function Assemble(entry: RouteEntry, c: StoredCache, appRoot: string, optionalParams: bool): (r: ApiRoute)
    requires c.typeDeclarations.Some? && c.referencedFiles.Some?
    ensures r.entry == entry && r.optionalParams == optionalParams
    ensures |r.referencedFiles| == |c.referencedFiles.value|
  {
    var refs := c.referencedFiles.value;
    ApiRoute(
      entry, c.params, c.numericParams, optionalParams, c.methods, c.typeDeclarations.value,
      c.payloadTypes, c.responseTypes,
      seq(|refs|, i requires 0 <= i < |refs| => ResolveAgainst(appRoot, refs[i].0)))
  }

  /** The page handler: it cannot fail and only lists the tokens' parameters. */
  function PageHandler(entry: RouteEntry): (r: RouteResolverEntry)
    ensures r.PageEntry? && r.Entry() == entry
  {
    PageEntry(PageRoute(entry, ParamsSchema(entry.pathTokens)))
  }

  /** The path of a route's `types.ts`. */
  function TypesPath(cfg: Config, entry: RouteEntry): string
    requires cfg.Valid()
  {
    Paths.Resolve(Some(cfg.appRoot), cfg.sourceFolder, cfg.defaults, Paths.Key("apiLibDir"),
                  [entry.importPath, "types.ts"])
  }

  /** The schema entries paired with `paramsRefinements?.at(index)`. */
  function RefinedSchema(schema: seq<Param>, refs: Option<seq<Refinement>>): (r: seq<(Param, Option<Refinement>)>)
    ensures |r| == |schema|
    ensures forall i :: 0 <= i < |r| ==>
      r[i].0 == schema[i] && r[i].1 == (if refs.Some? then At(refs.value, i) else None)
    ensures refs.None? ==> forall i :: 0 <= i < |r| ==> r[i].1.None?
    ensures refs.Some? ==> forall i :: 0 <= i < |r| ==> (r[i].1.Some? <==> i < |refs.value|)
  {
    seq(|schema|, i requires 0 <= i < |schema| =>
      (schema[i], if refs.Some? then At(refs.value, i) else None))
  }

  function WithResolvedPayload(ps: seq<PayloadType>, resolved: Option<seq<ResolvedType>>): seq<PayloadType> {
    seq(|ps|, i requires 0 <= i < |ps| => ps[i].(resolvedType := FindResolved(resolved, ps[i].id)))
  }

  function WithResolvedResponse(rs: seq<ResponseType>, resolved: Option<seq<ResolvedType>>): seq<ResponseType> {
    seq(|rs|, i requires 0 <= i < |rs| => rs[i].(resolvedType := FindResolved(resolved, rs[i].id)))
  }

  function PayloadIds(ps: seq<PayloadType>): seq<string> {
    seq(|ps|, i requires 0 <= i < |ps| => ps[i].id)
  }

  /** The `types.ts` template rendered from an extracted signature. */
  function TypesContent(entry: RouteEntry, sig: Signature): TypesFile {
    var schema := ParamsSchema(entry.pathTokens);
    TypesTemplate(
      ApiParams(ParamsId(entry.name), schema, None), RefinedSchema(schema, sig.paramsRefinements),
      sig.typeDeclarations, sig.payloadTypes, sig.responseTypes)
  }

  /** The literal types, resolved only when `resolveTypes` is on. */
  function LiteralTypes(env: Env, entry: RouteEntry, sig: Signature): (r: Option<seq<ResolvedType>>)
    ensures r.Some? <==> env.resolveTypes
  {
    if env.resolveTypes then
      Some(env.collab.resolveLiteral(
        TypesContent(entry, sig),
        Overrides(TypeRefs(sig.payloadTypes, sig.responseTypes), env.cfg.refineTypeName),
        [ParamsId(entry.name)] + PayloadIds(sig.payloadTypes)))
    else None
  }

  /** What the miss path writes to `types.ts`: the resolved literal types when
      `resolveTypes` is on, the plain template otherwise. */
  function TypesFileOf(env: Env, entry: RouteEntry, sig: Signature): (t: TypesFile)
    ensures t.ResolvedTemplate? <==> env.resolveTypes
  {
    var resolved := LiteralTypes(env, entry, sig);
    if resolved.Some? then ResolvedTemplate(resolved.value) else TypesContent(entry, sig)
  }

  /** The record the miss path persists. */
  function MissData(env: Env, entry: RouteEntry, sig: Signature): (d: CacheData)
    ensures d.numericParams == NumericParams(sig.paramsRefinements, ParamsSchema(entry.pathTokens))
    ensures d.params.id == ParamsId(entry.name) && d.params.schema == ParamsSchema(entry.pathTokens)
  {
    var resolved := LiteralTypes(env, entry, sig);
    var paramsId := ParamsId(entry.name);
    CacheData(
      ApiParams(paramsId, ParamsSchema(entry.pathTokens), FindResolved(resolved, paramsId)),
      sig.methods, sig.typeDeclarations, NumericParams(sig.paramsRefinements, ParamsSchema(entry.pathTokens)),
      WithResolvedPayload(sig.payloadTypes, resolved),
      WithResolvedResponse(sig.responseTypes, resolved))
  }

  /** The API route `handler(updatedFile)`. */
  method ApiHandler(disk: Disk, env: Env, entry: RouteEntry, updatedFile: Option<string>)
    returns (r: Result<RouteResolverEntry>)
    requires env.cfg.Valid()
    modifies disk
    ensures disk.files == old(disk.files)
    ensures r.Success? ==> r.value.ApiEntry? && r.value.Entry() == entry
    ensures r.Success? ==> r.value.api.optionalParams == OptionalParams(ParamsSchema(entry.pathTokens))
    // A validated cache hit: the record is reused and nothing is written.
    ensures var h := CacheFactory(env.cfg, entry, env.resolveTypes);
      var hit := GetCacheSpec(h, old(disk.caches), old(disk.files), true);
      hit.Some? ==>
        && r == Success(ApiEntry(Assemble(entry, hit.value, env.cfg.appRoot, OptionalParams(ParamsSchema(entry.pathTokens)))))
        && disk.caches == old(disk.caches) && disk.typesFiles == old(disk.typesFiles)
        && disk.refreshed == old(disk.refreshed)
    // A miss: the extractor runs on the current files, after a refresh when the
    // route file itself was the one updated.
    ensures var h := CacheFactory(env.cfg, entry, env.resolveTypes);
      GetCacheSpec(h, old(disk.caches), old(disk.files), true).None? ==>
        disk.refreshed == old(disk.refreshed) +
          (if updatedFile == Some(entry.fileFullpath) then [entry.fileFullpath] else [])
    ensures var h := CacheFactory(env.cfg, entry, env.resolveTypes);
      var sig := env.collab.extract(entry, OptionalParams(ParamsSchema(entry.pathTokens)), old(disk.files));
      GetCacheSpec(h, old(disk.caches), old(disk.files), true).None? && sig.Failure? ==>
        r.Failure? && disk.caches == old(disk.caches) && disk.typesFiles == old(disk.typesFiles)
    // A successful miss writes `types.ts` with the template `resolveTypes` selects
    // and persists a record the route is assembled from; when the route file
    // hashes to non-zero and the referenced files are normal paths, a validated
    // read now returns that record, so the next run is a hit.
    ensures var h := CacheFactory(env.cfg, entry, env.resolveTypes);
      var sig := env.collab.extract(entry, OptionalParams(ParamsSchema(entry.pathTokens)), old(disk.files));
      GetCacheSpec(h, old(disk.caches), old(disk.files), true).None? && sig.Success? ==>
        && r.Success?
        && h.cacheFile in disk.caches && disk.caches[h.cacheFile].Parsed?
        && var c := disk.caches[h.cacheFile].record;
        && disk.caches == old(disk.caches)[h.cacheFile := Parsed(c)]
        && c.typeDeclarations.Some? && c.referencedFiles.Some?
        && r.value.api == Assemble(entry, c, env.cfg.appRoot, OptionalParams(ParamsSchema(entry.pathTokens)))
        && c.numericParams == NumericParams(sig.value.paramsRefinements, ParamsSchema(entry.pathTokens))
        && c.params.id == ParamsId(entry.name) && c.params.schema == ParamsSchema(entry.pathTokens)
        && TypesPath(env.cfg, entry) in disk.typesFiles
        && (env.resolveTypes <==> disk.typesFiles[TypesPath(env.cfg, entry)].ResolvedTemplate?)
        && disk.typesFiles == old(disk.typesFiles)[TypesPath(env.cfg, entry) := disk.typesFiles[TypesPath(env.cfg, entry)]]
        && ((RouteHash(h, disk.files) != 0
             && forall i :: 0 <= i < |sig.value.referencedFiles.GetOr([])| ==> Normal(sig.value.referencedFiles.GetOr([])[i]))
            ==> GetCacheSpec(h, disk.caches, disk.files, true) == Some(c))
  {
    var h := CacheFactory(env.cfg, entry, env.resolveTypes);
    var cache := disk.GetCache(h, true);
    if cache.None? {
      r := ResolveMiss(disk, env, entry, updatedFile);
      var sig := env.collab.extract(entry, OptionalParams(ParamsSchema(entry.pathTokens)), disk.files);
      if sig.Success? {
        var referenced := sig.value.referencedFiles.GetOr([]);
        if RouteHash(h, disk.files) != 0 && forall i :: 0 <= i < |referenced| ==> Normal(referenced[i]) {
          PersistThenGetCache(h, MissData(env, entry, sig.value), referenced, disk.files, old(disk.caches));
        }
      }
    } else {
      r := Success(ApiEntry(Assemble(entry, cache.value, env.cfg.appRoot, OptionalParams(ParamsSchema(entry.pathTokens)))));
    }
  }

  /** The record the miss path persists, hashed against the files it read. */
  function MissRecord(h: CacheHandle, env: Env, entry: RouteEntry, sig: Signature, files: map<string, string>)
    : (c: StoredCache)
    ensures c.typeDeclarations.Some? && c.referencedFiles.Some?
  {
    Persisted(h, MissData(env, entry, sig), sig.referencedFiles.GetOr([]), files)
  }

  /** The handler past a cache miss: refresh when the route file itself was
      updated, run the extractor, write `types.ts` and persist a new record. */
  method ResolveMiss(disk: Disk, env: Env, entry: RouteEntry, updatedFile: Option<string>)
    returns (r: Result<RouteResolverEntry>)
    requires env.cfg.Valid()
    modifies disk
    ensures disk.files == old(disk.files)
    ensures disk.refreshed == old(disk.refreshed) +
      (if updatedFile == Some(entry.fileFullpath) then [entry.fileFullpath] else [])
    ensures var sig := env.collab.extract(entry, OptionalParams(ParamsSchema(entry.pathTokens)), old(disk.files));
      sig.Failure? ==> r.Failure? && disk.caches == old(disk.caches) && disk.typesFiles == old(disk.typesFiles)
    ensures var h := CacheFactory(env.cfg, entry, env.resolveTypes);
      var sig := env.collab.extract(entry, OptionalParams(ParamsSchema(entry.pathTokens)), old(disk.files));
      sig.Success? ==>
        var c := MissRecord(h, env, entry, sig.value, old(disk.files));
        && r == Success(ApiEntry(Assemble(entry, c, env.cfg.appRoot, OptionalParams(ParamsSchema(entry.pathTokens)))))
        && disk.caches == old(disk.caches)[h.cacheFile := Parsed(c)]
        && disk.typesFiles == old(disk.typesFiles)[TypesPath(env.cfg, entry) := TypesFileOf(env, entry, sig.value)]
  {
    var optionalParams := OptionalParams(ParamsSchema(entry.pathTokens));
    var h := CacheFactory(env.cfg, entry, env.resolveTypes);
    if updatedFile == Some(entry.fileFullpath) {
      disk.Refresh(entry.fileFullpath);
    }
    var extracted := env.collab.extract(entry, optionalParams, disk.files);
    if extracted.Failure? {
      return Failure(extracted.error);
    }
    var sig := extracted.value;
    disk.WriteTypes(TypesPath(env.cfg, entry), TypesFileOf(env, entry, sig));
    var c := disk.PersistCache(h, MissData(env, entry, sig), sig.referencedFiles.GetOr([]));
    r := Success(ApiEntry(Assemble(entry, c, env.cfg.appRoot, optionalParams)));
  }

  /** Runs a resolver's handler: the API handler for an API route, the page
      handler otherwise. */
  method RunResolver(disk: Disk, env: Env, resolver: RouteResolver, updatedFile: Option<string>)
    returns (r: Result<RouteResolverEntry>)
    requires env.cfg.Valid()
    modifies disk
    ensures disk.files == old(disk.files)
    ensures r.Success? ==> r.value.Entry() == resolver.entry
    ensures resolver.entry.folder != ApiDir ==>
      r == Success(PageHandler(resolver.entry)) && unchanged(disk)
  {
    if resolver.entry.folder == ApiDir {
      r := ApiHandler(disk, env, resolver.entry, updatedFile);
    } else {
      r := Success(PageHandler(resolver.entry));
    }
  }

  /** Whether every resolver is keyed by its entry's full path, named after its
      route, and built from one of `entries`. */
  ghost predicate WellKeyed(resolvers: Dict<RouteResolver>, entries: seq<RouteEntry>) {
    forall k :: k in resolvers.vals ==>
      && resolvers.vals[k].entry.fileFullpath == k
      && resolvers.vals[k].name == resolvers.vals[k].entry.name
      && resolvers.vals[k].entry in entries
  }

  /** No page resolver comes before an API resolver. */
  ghost predicate ApiFirst(resolvers: Dict<RouteResolver>)
    requires forall k :: k in resolvers.keys ==> k in resolvers.vals
  {
    forall i, j :: 0 <= i < j < |resolvers.keys| && resolvers.vals[resolvers.keys[i]].entry.folder != ApiDir ==>
      resolvers.vals[resolvers.keys[j]].entry.folder != ApiDir
  }

  lemma SetKeepsWellKeyed(d: Dict<RouteResolver>, e: RouteEntry, entries: seq<RouteEntry>)
    requires d.Valid() && WellKeyed(d, entries) && e in entries
    ensures WellKeyed(d.Set(e.fileFullpath, RouteResolver(e.name, e)), entries)
  {
  }

  lemma {:induction false} SetKeepsApiFirst(d: Dict<RouteResolver>, k: string, v: RouteResolver)
    requires d.Valid() && ApiFirst(d)
    requires v.entry.folder != ApiDir
    requires k in d.vals ==> d.vals[k].entry.folder != ApiDir
    ensures ApiFirst(d.Set(k, v))
  {
    var d' := d.Set(k, v);
    forall i, j | 0 <= i < j < |d'.keys| && d'.vals[d'.keys[i]].entry.folder != ApiDir
      ensures d'.vals[d'.keys[j]].entry.folder != ApiDir
    {
      if j < |d.keys| {
        assert d'.keys[i] == d.keys[i] && d'.keys[j] == d.keys[j];
      }
    }
  }

  /** Inserts the API resolvers, in order. */
  method InsertApi(entries: seq<RouteEntry>) returns (resolvers: Dict<RouteResolver>)
    ensures resolvers.Valid() && WellKeyed(resolvers, entries) && ApiFirst(resolvers)
    ensures forall k :: k in resolvers.vals ==> resolvers.vals[k].entry.folder == ApiDir
    ensures forall j :: 0 <= j < |entries| && entries[j].folder == ApiDir ==> entries[j].fileFullpath in resolvers.vals
  {
    resolvers := Empty();
    for i := 0 to |entries|
      invariant resolvers.Valid() && WellKeyed(resolvers, entries)
      invariant forall k :: k in resolvers.vals ==> resolvers.vals[k].entry.folder == ApiDir
      invariant forall j :: 0 <= j < i && entries[j].folder == ApiDir ==> entries[j].fileFullpath in resolvers.vals
    {
      if entries[i].folder == ApiDir {
        SetKeepsWellKeyed(resolvers, entries[i], entries);
        resolvers := resolvers.Set(entries[i].fileFullpath, RouteResolver(entries[i].name, entries[i]));
      }
    }
  }

  /** Every entry is keyed by the full path of its file under its route root. */
  ghost predicate Derived(cfg: Config, entries: seq<RouteEntry>) {
    forall e :: e in entries ==>
      (e.folder == ApiDir || e.folder == PagesDir) && e.file != ""
      && e.fileFullpath == FileFullpath(cfg, e.folder, e.file)
  }

  /** A page's key never holds an API resolver: the two roots differ. */
  lemma PageKeyFree(cfg: Config, entries: seq<RouteEntry>, d: Dict<RouteResolver>, e: RouteEntry)
    requires cfg.Valid() && Derived(cfg, entries) && WellKeyed(d, entries)
    requires e in entries && e.folder == PagesDir
    ensures e.fileFullpath in d.vals ==> d.vals[e.fileFullpath].entry.folder != ApiDir
  {
    if e.fileFullpath in d.vals && d.vals[e.fileFullpath].entry.folder == ApiDir {
      FullpathFolderDistinct(cfg, d.vals[e.fileFullpath].entry.file, e.file);
      assert false;
    }
  }

  /** Inserts the page resolvers after the API ones. */
  method InsertPages(cfg: Config, entries: seq<RouteEntry>, api: Dict<RouteResolver>)
    returns (resolvers: Dict<RouteResolver>)
    requires cfg.Valid() && Derived(cfg, entries)
    requires api.Valid() && WellKeyed(api, entries) && ApiFirst(api)
    ensures resolvers.Valid() && WellKeyed(resolvers, entries) && ApiFirst(resolvers)
    ensures forall k :: k in api.vals ==> k in resolvers.vals
    ensures forall j :: 0 <= j < |entries| && entries[j].folder == PagesDir ==> entries[j].fileFullpath in resolvers.vals
  {
    resolvers := api;
    for i := 0 to |entries|
      invariant resolvers.Valid() && WellKeyed(resolvers, entries) && ApiFirst(resolvers)
      invariant forall k :: k in api.vals ==> k in resolvers.vals
      invariant forall j :: 0 <= j < i && entries[j].folder == PagesDir ==> entries[j].fileFullpath in resolvers.vals
    {
      var e := entries[i];
      if e.folder == PagesDir {
        PageKeyFree(cfg, entries, resolvers, e);
        SetKeepsWellKeyed(resolvers, e, entries);
        SetKeepsApiFirst(resolvers, e.fileFullpath, RouteResolver(e.name, e));
        resolvers := resolvers.Set(e.fileFullpath, RouteResolver(e.name, e));
      }
    }
  }

  /** `resolversFactory(routeFiles)`: one resolver per route file, keyed by its full
      path; the API routes are inserted first, then the page routes. */
  method ResolversFactory(cfg: Config, routeFiles: seq<string>) returns (resolvers: Dict<RouteResolver>)
    requires cfg.Valid()
    ensures resolvers.Valid()
    ensures WellKeyed(resolvers, Entries(cfg, routeFiles))
    ensures forall e :: e in Entries(cfg, routeFiles) ==> e.fileFullpath in resolvers.vals
    ensures ApiFirst(resolvers)
  {
    var entries := Entries(cfg, routeFiles);
    assert Derived(cfg, entries);
    var api := InsertApi(entries);
    resolvers := InsertPages(cfg, entries, api);
    forall e | e in entries ensures e.fileFullpath in resolvers.vals {
      var j :| 0 <= j < |entries| && entries[j] == e;
    }
  }
}

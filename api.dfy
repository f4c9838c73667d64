/** The API generator's watch handler and route index
    (packages/generators/api-generator/src/factory.ts): the router path of an
    API route, the alias entries added for configured URLs, the index sorted
    by specificity, and which route files, library files and index the handler
    writes for each kind of watcher event. */
module ApiGenerator {
  import opened Wrappers
  import opened Text
  import opened PathTokens
  import opened Types
  import opened Paths
  import opened Routes
  import opened RoutePaths
  import opened Output

  // ---------------------------------------------------------------------------
  // `pathFactory`

  /** What one token contributes to the router path. A static token's path is
      returned bare, which `flatMap` keeps as one element. */
  function Segment(t: PathToken): seq<string> {
    match ShapeOf(t)
    case RestShape(n) => ["{*" + n + "}"]
    case OptionalShape(n) => ["{/:" + n + "}"]
    case RequiredShape(n) => [":" + n]
    case StaticShape(p) => if p == "/" then [] else [p]
  }

  /** The elements `flatMap` collects: one per contributing token, in order. */
  function Elements(ts: seq<PathToken>): (r: seq<string>)
    ensures |r| == |Shapes(ts)|
    decreases |ts|
  {
    if |ts| == 0 then [] else Segment(ts[0]) + Elements(ts[1..])
  }

  /** `pathFactory(pathTokens)`. */
  function PathFactory(ts: seq<PathToken>): string {
    EscapePlus(Join(Elements(ts), "/"))
  }

  /** How the router reads one element back. */
  function DecodeSegment(s: string): Shape {
    if |s| >= 3 && s[..2] == "{*" && s[|s| - 1] == '}' then RestShape(s[2..|s| - 1])
    else if |s| >= 4 && s[..3] == "{/:" && s[|s| - 1] == '}' then OptionalShape(s[3..|s| - 1])
    else if |s| > 0 && s[0] == ':' then RequiredShape(s[1..])
    else StaticShape(s)
  }

  /** A token whose element cannot be mistaken for another shape: a static segment
      that does not start like a parameter. */
  predicate Readable(t: PathToken) {
    match ShapeOf(t)
    case StaticShape(p) => p == "/" || !(|p| > 0 && (p[0] == ':' || p[0] == '{'))
    case _ => true
  }

  /** Every element reads back as the shape of its token; the `/` token of an index
      segment contributes nothing. */
  lemma SegmentRoundTrip(t: PathToken)
    requires Readable(t)
    ensures ShapeOf(t) == StaticShape("/") <==> Segment(t) == []
    ensures ShapeOf(t) != StaticShape("/") ==> |Segment(t)| == 1 && DecodeSegment(Segment(t)[0]) == ShapeOf(t)
  {
    match ShapeOf(t)
    case RestShape(n) =>
      var s := "{*" + n + "}";
      assert s[..2] == "{*" && s[2..|s| - 1] == n;
    case OptionalShape(n) =>
      var s := "{/:" + n + "}";
      assert s[1] == '/';
      assert s[..3] == "{/:" && s[3..|s| - 1] == n;
    case RequiredShape(n) =>
      var s := ":" + n;
      assert s[0] == ':' && s[1..] == n;
    case StaticShape(p) =>
      if p != "/" && |p| >= 3 {
        assert p[..2] != "{*" && p[..3] != "{/:";
      }
  }

  /** Position by position, every element reads back as the shape of its
      contributing token. */
  lemma {:induction false} ElementsShapes(ts: seq<PathToken>)
    requires forall k :: 0 <= k < |ts| ==> Readable(ts[k])
    ensures forall k :: 0 <= k < |Elements(ts)| ==> DecodeSegment(Elements(ts)[k]) == Shapes(ts)[k]
    decreases |ts|
  {
    if |ts| > 0 {
      ElementsShapes(ts[1..]);
      SegmentRoundTrip(ts[0]);
    }
  }

  /** The escape is undone by reading `\\+` back as `+`: the router sees the
      elements joined with `/`. */
  lemma PathFactoryUnescapes(ts: seq<PathToken>)
    ensures Unescape(PathFactory(ts)) == Join(Elements(ts), "/")
  {
    EscapeRoundTrip(Join(Elements(ts), "/"));
  }

  // ---------------------------------------------------------------------------
  // The route index: `routes` in `generateIndexFiles`

  /** An API route as listed in the index, under its own name or an alias URL.
      `fullpath` is set on alias entries only. */
  datatype IndexEntry = IndexEntry(
    route: ApiRoute,
    name: string,
    importName: string,
    path: string,
    fullpath: Option<string>,
    pathTokens: seq<PathToken>)

  /** `baseRoute`. */
  function BaseEntry(r: ApiRoute): IndexEntry {
    IndexEntry(r, r.entry.name, r.entry.importName, PathFactory(r.entry.pathTokens), None, r.entry.pathTokens)
  }

  /** The entry for alias `url`: the base route renamed, with its own tokens and
      full path but the base route's `path`. */
  function AliasEntry(r: ApiRoute, url: string): IndexEntry {
    var ts := Tokens(url);
    IndexEntry(r, url, Join([r.entry.importName, NatToString(Crc32(url))], "_"),
               PathFactory(r.entry.pathTokens), Some(PathFactory(ts)), ts)
  }

  /** The `(url, routeName)` pairs of the `alias` option whose target is the route. */
  function Aliases(r: ApiRoute, alias: seq<(string, string)>): (a: seq<IndexEntry>)
    ensures |a| <= |alias|
    decreases |alias|
  {
    if |alias| == 0 then []
    else (if alias[0].1 == r.entry.name then [AliasEntry(r, alias[0].0)] else []) + Aliases(r, alias[1..])
  }

  /** How many alias pairs target the route. */
  function Targeting(r: ApiRoute, alias: seq<(string, string)>): nat
    decreases |alias|
  {
    if |alias| == 0 then 0
    else (if alias[0].1 == r.entry.name then 1 else 0) + Targeting(r, alias[1..])
  }

  function RouteEntries(r: ApiRoute, alias: seq<(string, string)>): seq<IndexEntry> {
    [BaseEntry(r)] + Aliases(r, alias)
  }

  /** Every alias entry comes from a pair naming the route, one per such pair; a
      route no alias names is listed once. */
  lemma {:induction false} AliasesSpec(r: ApiRoute, alias: seq<(string, string)>)
    ensures |Aliases(r, alias)| == Targeting(r, alias)
    ensures |RouteEntries(r, alias)| == 1 + Targeting(r, alias)
    ensures forall e :: e in Aliases(r, alias) ==>
      exists url :: (url, r.entry.name) in alias && e == AliasEntry(r, url)
    ensures (forall i :: 0 <= i < |alias| ==> alias[i].1 != r.entry.name) ==> RouteEntries(r, alias) == [BaseEntry(r)]
    decreases |alias|
  {
    if |alias| > 0 {
      AliasesSpec(r, alias[1..]);
      forall e | e in Aliases(r, alias) ensures exists url :: (url, r.entry.name) in alias && e == AliasEntry(r, url) {
        if alias[0].1 == r.entry.name && e == AliasEntry(r, alias[0].0) {
          assert (alias[0].0, r.entry.name) == alias[0];
        } else {
          assert e in Aliases(r, alias[1..]);
          var url :| (url, r.entry.name) in alias[1..] && e == AliasEntry(r, url);
          assert (url, r.entry.name) in alias;
        }
      }
    }
  }

  /** An alias entry's import name stays an identifier: the base import name, `_`
      and the checksum of the URL. */
  lemma AliasImportName(r: ApiRoute, url: string)
    requires AllWord(r.entry.importName)
    ensures AllWord(AliasEntry(r, url).importName)
    ensures EndsWith(AliasEntry(r, url).importName, "_" + NatToString(Crc32(url)))
  {
    LabelledChecksum(r.entry.importName, NatToString(Crc32(url)));
  }

  /** The entries of the API routes, route by route, before sorting. */
  function Unsorted(apis: seq<ApiRoute>, alias: seq<(string, string)>): seq<IndexEntry>
    decreases |apis|
  {
    if |apis| == 0 then [] else RouteEntries(apis[0], alias) + Unsorted(apis[1..], alias)
  }

  /** The comparator: static-token count of the entry's own tokens, then `path`. */
  function EntryKey(e: IndexEntry): SortKey {
    SortKey(StaticSegments(e.pathTokens), e.path)
  }

  function IndexEntries(es: seq<RouteResolverEntry>, alias: seq<(string, string)>): seq<IndexEntry> {
    SortBy(Unsorted(Apis(es), alias), EntryKey)
  }

  lemma {:induction false} UnsortedMembers(apis: seq<ApiRoute>, alias: seq<(string, string)>)
    ensures forall r :: r in apis ==> BaseEntry(r) in Unsorted(apis, alias)
    ensures forall e :: e in Unsorted(apis, alias) ==> e.route in apis && e in RouteEntries(e.route, alias)
    decreases |apis|
  {
    if |apis| > 0 {
      UnsortedMembers(apis[1..], alias);
      assert forall r :: r in apis ==> r == apis[0] || r in apis[1..];
      forall e | e in RouteEntries(apis[0], alias) ensures e.route == apis[0] {
        if e != BaseEntry(apis[0]) {
          AliasesSpec(apis[0], alias);
        }
      }
    }
  }

  /** The index lists every API route under its own name, and nothing but the API
      routes' own and alias entries; the order puts entries with more static
      tokens first. */
  lemma IndexEntriesSpec(es: seq<RouteResolverEntry>, alias: seq<(string, string)>)
    ensures multiset(IndexEntries(es, alias)) == multiset(Unsorted(Apis(es), alias))
    ensures forall r :: ApiEntry(r) in es ==> BaseEntry(r) in IndexEntries(es, alias)
    ensures forall e :: e in IndexEntries(es, alias) ==> ApiEntry(e.route) in es && e in RouteEntries(e.route, alias)
    ensures Sorted(IndexEntries(es, alias), EntryKey)
    ensures forall i, j :: (0 <= i < |IndexEntries(es, alias)| && 0 <= j < |IndexEntries(es, alias)|
                            && EntryKey(IndexEntries(es, alias)[i]).statics > EntryKey(IndexEntries(es, alias)[j]).statics)
                           ==> i < j
  {
    SortBySpec(Unsorted(Apis(es), alias), EntryKey);
    SortedStaticsFirst(IndexEntries(es, alias), EntryKey);
    UnsortedMembers(Apis(es), alias);
  }

  // ---------------------------------------------------------------------------
  // The watch handler

  /** What the factory closes over: resolved folders, the `alias` and `templates`
      options with the glob matcher, and the renderer for each kind of file. */
  datatype Setup = Setup(
    apiDir: string,          // resolve("apiDir")
    apiLibDir: string,       // resolve("apiLibDir")
    indexFile: string,       // resolve("libDir", sourceFolder, `${defaults.apiLibDir}.ts`)
    alias: seq<(string, string)>,
    templates: seq<(string, string)>,
    matches: (string, string) -> bool,
    routeTemplate: string,   // the built-in route template
    renderPublic: (string, ApiRoute) -> string,
    renderLib: ApiRoute -> string,
    renderIndex: seq<IndexEntry> -> string)

  function PublicPath(s: Setup, r: ApiRoute): string {
    JoinPath([s.apiDir, r.entry.file])
  }

  function LibPath(s: Setup, r: ApiRoute): string {
    JoinPath([s.apiLibDir, r.entry.importPath, "index.ts"])
  }

  /** The route file, filled only when it exists and is blank. */
  function PublicWrite(s: Setup, r: ApiRoute): Write {
    Write(PublicPath(s, r),
          s.renderPublic(ChooseTemplate(s.templates, r.entry.name, s.matches, s.routeTemplate), r),
          WhenEmptyText)
  }

  function LibWrite(s: Setup, r: ApiRoute): Write {
    Write(LibPath(s, r), s.renderLib(r), Always)
  }

  function IndexWrite(s: Setup, es: seq<RouteResolverEntry>): Write {
    Write(s.indexFile, s.renderIndex(IndexEntries(es, s.alias)), Always)
  }

  /** `generatePublicFiles(entries)`. */
  function PublicWrites(s: Setup, es: seq<RouteResolverEntry>): seq<Write>
    decreases |es|
  {
    if |es| == 0 then []
    else
      var last := es[|es| - 1];
      PublicWrites(s, es[..|es| - 1]) + (if last.ApiEntry? then [PublicWrite(s, last.api)] else [])
  }

  /** `generateLibFiles(entries)`. */
  function LibWrites(s: Setup, es: seq<RouteResolverEntry>): seq<Write>
    decreases |es|
  {
    if |es| == 0 then []
    else
      var last := es[|es| - 1];
      LibWrites(s, es[..|es| - 1]) + (if last.ApiEntry? then [LibWrite(s, last.api)] else [])
  }

  /** `relatedEntries`: the API entries whose route file is the event's file. */
  function Related(es: seq<RouteResolverEntry>, file: string): (r: seq<RouteResolverEntry>)
    ensures forall e :: e in r <==> e in es && e.ApiEntry? && e.api.entry.fileFullpath == file
    decreases |es|
  {
    if |es| == 0 then []
    else
      assert forall e :: e in es <==> e == es[0] || e in es[1..];
      (if es[0].ApiEntry? && es[0].api.entry.fileFullpath == file then [es[0]] else []) + Related(es[1..], file)
  }

  /** The calls `watchHandler(entries, event)` makes, in order. */
  function HandlerWrites(s: Setup, es: seq<RouteResolverEntry>, event: Option<WatcherEvent>): seq<Write> {
    (match event
     case None => PublicWrites(s, es) + LibWrites(s, es)
     case Some(WatcherEvent(Create, f)) => PublicWrites(s, Related(es, f)) + LibWrites(s, Related(es, f))
     case Some(WatcherEvent(Update, f)) => LibWrites(s, Related(es, f))
     case Some(WatcherEvent(Delete, _)) => [])
    + [IndexWrite(s, es)]
  }

  method GeneratePublicFiles(files: Files, s: Setup, es: seq<RouteResolverEntry>)
    modifies files
    ensures files.contents == Apply(old(files.contents), PublicWrites(s, es))
  {
    for i := 0 to |es|
      invariant files.contents == Apply(old(files.contents), PublicWrites(s, es[..i]))
    {
      assert es[..i + 1][..i] == es[..i];
      assert es[..i + 1][|es[..i + 1]| - 1] == es[i];
      if es[i].ApiEntry? {
        var w := PublicWrite(s, es[i].api);
        files.RenderToFile(w);
        ApplySnoc(old(files.contents), PublicWrites(s, es[..i]), w);
        assert PublicWrites(s, es[..i + 1]) == PublicWrites(s, es[..i]) + [w];
      } else {
        assert PublicWrites(s, es[..i + 1]) == PublicWrites(s, es[..i]) + [];
        assert PublicWrites(s, es[..i]) + [] == PublicWrites(s, es[..i]);
      }
    }
    assert es[..|es|] == es;
  }

  method GenerateLibFiles(files: Files, s: Setup, es: seq<RouteResolverEntry>)
    modifies files
    ensures files.contents == Apply(old(files.contents), LibWrites(s, es))
  {
    for i := 0 to |es|
      invariant files.contents == Apply(old(files.contents), LibWrites(s, es[..i]))
    {
      assert es[..i + 1][..i] == es[..i];
      assert es[..i + 1][|es[..i + 1]| - 1] == es[i];
      if es[i].ApiEntry? {
        var w := LibWrite(s, es[i].api);
        files.RenderToFile(w);
        ApplySnoc(old(files.contents), LibWrites(s, es[..i]), w);
        assert LibWrites(s, es[..i + 1]) == LibWrites(s, es[..i]) + [w];
      } else {
        assert LibWrites(s, es[..i + 1]) == LibWrites(s, es[..i]) + [];
        assert LibWrites(s, es[..i]) + [] == LibWrites(s, es[..i]);
      }
    }
    assert es[..|es|] == es;
  }

  /** `watchHandler(entries, event)`. */
  method WatchHandler(files: Files, s: Setup, es: seq<RouteResolverEntry>, event: Option<WatcherEvent>)
    modifies files
    ensures files.contents == Apply(old(files.contents), HandlerWrites(s, es, event))
  {
    ghost var m := files.contents;
    ghost var before: seq<Write> := [];
    if event.Some? {
      var related := Related(es, event.value.file);
      if event.value.kind == Create {
        GeneratePublicFiles(files, s, related);
        ghost var mid := files.contents;
        GenerateLibFiles(files, s, related);
        ApplyAppend(m, PublicWrites(s, related), LibWrites(s, related));
        before := PublicWrites(s, related) + LibWrites(s, related);
      } else if event.value.kind == Update {
        GenerateLibFiles(files, s, related);
        before := LibWrites(s, related);
      }
    } else {
      GeneratePublicFiles(files, s, es);
      GenerateLibFiles(files, s, es);
      ApplyAppend(m, PublicWrites(s, es), LibWrites(s, es));
      before := PublicWrites(s, es) + LibWrites(s, es);
    }
    assert files.contents == Apply(m, before);
    files.RenderToFile(IndexWrite(s, es));
    ApplySnoc(m, before, IndexWrite(s, es));
    assert HandlerWrites(s, es, event) == before + [IndexWrite(s, es)];
  }

  // ---------------------------------------------------------------------------
  // What the handler does to the files

  lemma {:induction false} PublicWritesApis(s: Setup, es: seq<RouteResolverEntry>)
    ensures |PublicWrites(s, es)| == |Apis(es)|
    ensures forall k :: 0 <= k < |Apis(es)| ==> PublicWrites(s, es)[k] == PublicWrite(s, Apis(es)[k])
    decreases |es|
  {
    if |es| > 0 {
      PublicWritesApis(s, es[..|es| - 1]);
    }
  }

  lemma {:induction false} LibWritesApis(s: Setup, es: seq<RouteResolverEntry>)
    ensures |LibWrites(s, es)| == |Apis(es)|
    ensures forall k :: 0 <= k < |Apis(es)| ==> LibWrites(s, es)[k] == LibWrite(s, Apis(es)[k])
    decreases |es|
  {
    if |es| > 0 {
      LibWritesApis(s, es[..|es| - 1]);
    }
  }

  /** The handler's calls, grouped: route files and library files of the entries in
      scope (all entries on the first call, the related ones otherwise), then the
      index. */
  function Scope(es: seq<RouteResolverEntry>, event: Option<WatcherEvent>): seq<RouteResolverEntry> {
    if event.None? then es else Related(es, event.value.file)
  }

  function RouteWrites(s: Setup, sub: seq<RouteResolverEntry>, pub: bool, lib: bool): seq<Write> {
    (if pub then PublicWrites(s, sub) else []) + (if lib then LibWrites(s, sub) else [])
  }

  /** Route files are filled on the first call and on create events, library files
      on every event but delete. */
  lemma HandlerWritesShape(s: Setup, es: seq<RouteResolverEntry>, event: Option<WatcherEvent>)
    ensures HandlerWrites(s, es, event)
      == RouteWrites(s, Scope(es, event), event.None? || event.value.kind == Create,
                     event.None? || event.value.kind != Delete)
         + [IndexWrite(s, es)]
  {
    RouteWritesCases(s, Scope(es, event));
  }

  lemma RouteWritesCases(s: Setup, sub: seq<RouteResolverEntry>)
    ensures RouteWrites(s, sub, true, true) == PublicWrites(s, sub) + LibWrites(s, sub)
    ensures RouteWrites(s, sub, false, true) == LibWrites(s, sub)
    ensures RouteWrites(s, sub, false, false) == []
  {
    assert RouteWrites(s, sub, false, true) == [] + LibWrites(s, sub);
    assert RouteWrites(s, sub, false, false) == [] + [];
  }

  /** A path that is neither the route file nor the library file of any API route in
      scope is not named before the index. */
  lemma RouteWritesAvoid(s: Setup, sub: seq<RouteResolverEntry>, pub: bool, lib: bool, p: string)
    requires forall r :: ApiEntry(r) in sub ==> LibPath(s, r) != p && PublicPath(s, r) != p
    ensures forall i :: 0 <= i < |RouteWrites(s, sub, pub, lib)| ==> RouteWrites(s, sub, pub, lib)[i].path != p
  {
    PublicWritesApis(s, sub);
    LibWritesApis(s, sub);
    var ws := RouteWrites(s, sub, pub, lib);
    var n := if pub then |PublicWrites(s, sub)| else 0;
    forall i | 0 <= i < |ws| ensures ws[i].path != p {
      if i < n {
        assert Apis(sub)[i] in Apis(sub);
      } else {
        assert Apis(sub)[i - n] in Apis(sub);
      }
    }
  }

  /** Outside the library files, every call before the index fills a blank route file. */
  lemma RouteWritesRules(s: Setup, sub: seq<RouteResolverEntry>, pub: bool, lib: bool, p: string)
    requires forall r :: ApiEntry(r) in sub ==> LibPath(s, r) != p
    ensures forall i :: (0 <= i < |RouteWrites(s, sub, pub, lib)| && RouteWrites(s, sub, pub, lib)[i].path == p)
                        ==> RouteWrites(s, sub, pub, lib)[i].rule == WhenEmptyText
  {
    PublicWritesApis(s, sub);
    LibWritesApis(s, sub);
  }

  /** With an event, the handler touches nothing but the index and the files of the
      API routes whose route file is the event's file. */
  lemma HandlerOnlyTouchesRelated(s: Setup, es: seq<RouteResolverEntry>, event: Option<WatcherEvent>,
                                  m: map<string, string>, p: string)
    requires event.Some? && p != s.indexFile
    requires forall r :: (ApiEntry(r) in es && r.entry.fileFullpath == event.value.file)
                         ==> LibPath(s, r) != p && PublicPath(s, r) != p
    ensures p in Apply(m, HandlerWrites(s, es, event)) <==> p in m
    ensures p in m ==> Apply(m, HandlerWrites(s, es, event))[p] == m[p]
  {
    var pub := event.value.kind == Create;
    var lib := event.value.kind != Delete;
    var rw := RouteWrites(s, Scope(es, event), pub, lib);
    HandlerWritesShape(s, es, event);
    RouteWritesAvoid(s, Scope(es, event), pub, lib, p);
    ApplyUntouched(m, rw + [IndexWrite(s, es)], p);
  }

  /** A delete event rewrites the index and nothing else. */
  lemma HandlerOnDelete(s: Setup, es: seq<RouteResolverEntry>, file: string, m: map<string, string>)
    ensures Apply(m, HandlerWrites(s, es, Some(WatcherEvent(Delete, file))))
      == m[s.indexFile := s.renderIndex(IndexEntries(es, s.alias))]
  {
    assert HandlerWrites(s, es, Some(WatcherEvent(Delete, file))) == [IndexWrite(s, es)];
  }

  /** Every call rewrites the index from the current entries. */
  lemma HandlerRegeneratesIndex(s: Setup, es: seq<RouteResolverEntry>, event: Option<WatcherEvent>,
                                m: map<string, string>)
    ensures s.indexFile in Apply(m, HandlerWrites(s, es, event))
    ensures Apply(m, HandlerWrites(s, es, event))[s.indexFile] == s.renderIndex(IndexEntries(es, s.alias))
  {
    var ws := HandlerWrites(s, es, event);
    ApplyLastAlways(m, ws, |ws| - 1);
  }

  /** A route file is filled only when it exists and is blank: one the user has
      written to is kept, and a missing one is not created. */
  lemma HandlerRouteFiles(s: Setup, es: seq<RouteResolverEntry>, event: Option<WatcherEvent>,
                          m: map<string, string>, p: string)
    requires p != s.indexFile
    requires forall r :: ApiEntry(r) in es ==> LibPath(s, r) != p
    ensures p !in m ==> p !in Apply(m, HandlerWrites(s, es, event))
    ensures p in m && !Blank(m[p]) ==>
      p in Apply(m, HandlerWrites(s, es, event)) && Apply(m, HandlerWrites(s, es, event))[p] == m[p]
  {
    var pub := event.None? || event.value.kind == Create;
    var lib := event.None? || event.value.kind != Delete;
    var rw := RouteWrites(s, Scope(es, event), pub, lib);
    var ws := rw + [IndexWrite(s, es)];
    HandlerWritesShape(s, es, event);
    RouteWritesRules(s, Scope(es, event), pub, lib, p);
    assert forall i :: 0 <= i < |ws| && ws[i].path == p ==> ws[i].rule == WhenEmptyText by {
      forall i | 0 <= i < |ws| && ws[i].path == p ensures ws[i].rule == WhenEmptyText {
        assert ws[i] == rw[i];
      }
    }
    if p !in m {
      ApplyKeepsAbsent(m, ws, p);
    } else if !Blank(m[p]) {
      ApplyKeepsRefused(m, ws, p);
    }
  }
}

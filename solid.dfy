/** The Solid generator's watch handler and router table
    (packages/generators/solid-generator/src/factory.ts): the router path of
    a page route, the page table sorted by specificity, the API routes usable
    with `useResource`, the page source files filled from templates, and the
    overwrite rules that keep files the user has edited. */
module SolidGenerator {
  import opened Wrappers
  import opened Text
  import opened PathTokens
  import opened Types
  import opened Paths
  import opened RoutePaths
  import opened Output

  // ---------------------------------------------------------------------------
  // `pathFactory`

  /** What one token contributes to the router path: nothing for the `/` of an
      index segment. */
  function Segment(t: PathToken): seq<string> {
    match ShapeOf(t)
    case RestShape(n) => ["*" + n]
    case OptionalShape(n) => [":" + n + "?"]
    case RequiredShape(n) => [":" + n]
    case StaticShape(p) => if p == "/" then [] else [p]
  }

  function Elements(ts: seq<PathToken>): seq<string>
    decreases |ts|
  {
    if |ts| == 0 then [] else Segment(ts[0]) + Elements(ts[1..])
  }

  /** `pathFactory(pathTokens)`. */
  function PathFactory(ts: seq<PathToken>): string {
    EscapePlus(Join(Elements(ts), "/"))
  }

  /** How the router reads one segment of a path back. */
  function DecodeSegment(s: string): Shape {
    if |s| > 0 && s[0] == '*' then RestShape(s[1..])
    else if |s| >= 2 && s[0] == ':' && s[|s| - 1] == '?' then OptionalShape(s[1..|s| - 1])
    else if |s| > 0 && s[0] == ':' then RequiredShape(s[1..])
    else StaticShape(s)
  }

  /** How the router reads a whole generated path back. */
  function DecodePath(p: string): seq<Shape> {
    if p == "" then []
    else
      var parts := Split(Unescape(p), '/');
      seq(|parts|, i requires 0 <= i < |parts| => DecodeSegment(parts[i]))
  }

  /** A token whose segment cannot be mistaken for another shape: no `/` inside, a
      static segment that is non-empty and does not start like a parameter, and a
      required name that does not end like an optional one. */
  predicate Readable(t: PathToken) {
    match ShapeOf(t)
    case StaticShape(p) => p == "/" || (p != "" && '/' !in p && p[0] != ':' && p[0] != '*')
    case RequiredShape(n) => '/' !in n && !(|n| > 0 && n[|n| - 1] == '?')
    case OptionalShape(n) => '/' !in n
    case RestShape(n) => '/' !in n
  }

  lemma SegmentRoundTrip(t: PathToken)
    requires Readable(t)
    ensures ShapeOf(t) == StaticShape("/") ==> Segment(t) == []
    ensures ShapeOf(t) != StaticShape("/") ==>
      |Segment(t)| == 1 && Segment(t)[0] != "" && '/' !in Segment(t)[0]
      && DecodeSegment(Segment(t)[0]) == ShapeOf(t)
  {
    match ShapeOf(t)
    case RestShape(n) =>
      assert forall c :: c in "*" + n ==> c == '*' || c in n;
    case OptionalShape(n) =>
      var s := ":" + n + "?";
      assert s[1..|s| - 1] == n;
      assert forall c :: c in s ==> c == ':' || c == '?' || c in n;
    case RequiredShape(n) =>
      var s := ":" + n;
      assert s[1..] == n;
      assert forall c :: c in s ==> c == ':' || c in n;
    case StaticShape(p) =>
  }

  lemma {:induction false} ElementsShapes(ts: seq<PathToken>)
    requires forall k :: 0 <= k < |ts| ==> Readable(ts[k])
    ensures |Elements(ts)| == |Shapes(ts)|
    ensures forall k :: 0 <= k < |Elements(ts)| ==>
      Elements(ts)[k] != "" && '/' !in Elements(ts)[k] && DecodeSegment(Elements(ts)[k]) == Shapes(ts)[k]
    decreases |ts|
  {
    if |ts| > 0 {
      ElementsShapes(ts[1..]);
      SegmentRoundTrip(ts[0]);
    }
  }

  /** The router recovers every parameter and static segment, in order, from the
      generated path; an index segment leaves no trace. */
  lemma PathFactoryRoundTrip(ts: seq<PathToken>)
    requires forall k :: 0 <= k < |ts| ==> Readable(ts[k])
    ensures DecodePath(PathFactory(ts)) == Shapes(ts)
  {
    var es := Elements(ts);
    ElementsShapes(ts);
    EscapeRoundTrip(Join(es, "/"));
    if |es| == 0 {
      assert PathFactory(ts) == "";
    } else {
      Routes.JoinNonEmpty(es, "/");
      assert PathFactory(ts) != "";
      SplitJoin(es, '/');
      assert Split(Unescape(PathFactory(ts)), '/') == es;
    }
  }

  lemma IndexToken()
    ensures MakeToken("index", 0) == PathToken("index", "index", "/", "", None)
  {
    NoDotNoExtension("index");
  }

  lemma IdToken()
    ensures MakeToken("[id]", 1) == PathToken("[id]", "[id]", "[id]", "", Some(Param("id", "id", true, false, false)))
  {
    NoDotNoExtension("[id]");
    assert !IsRestForm("[id]") && !IsOptionalForm("[id]") && IsRequiredForm("[id]");
    assert "[id]"[1..3] == "id";
    assert !HasNonWord("id");
  }

  /** The route `index` has the empty router path. */
  lemma IndexPathExample()
    ensures PathFactory(Tokens("index")) == ""
  {
    SplitNoSep("index", '/');
    IndexToken();
    var t := MakeToken("index", 0);
    assert Tokens("index") == [t];
    assert Elements([t]) == [] + Elements([]);
  }

  lemma ParamPathTokens()
    ensures Tokens("index/[id]") == [PathToken("index", "index", "/", "", None),
      PathToken("[id]", "[id]", "[id]", "", Some(Param("id", "id", true, false, false)))]
  {
    var segs := ["index", "[id]"];
    assert Join(segs, "/") == "index/[id]" by {
      assert Join(segs, "/") == segs[0] + "/" + Join(segs[1..], "/");
    }
    SplitJoin(segs, '/');
    IndexToken();
    IdToken();
  }

  /** The route `index/[id]` has the router path `:id`. */
  lemma ParamPathExample()
    ensures PathFactory(Tokens("index/[id]")) == ":id"
  {
    ParamPathTokens();
    var t1 := PathToken("[id]", "[id]", "[id]", "", Some(Param("id", "id", true, false, false)));
    ParamPathOf([PathToken("index", "index", "/", "", None), t1], t1);
  }

  lemma ParamPathOf(ts: seq<PathToken>, t1: PathToken)
    requires t1 == PathToken("[id]", "[id]", "[id]", "", Some(Param("id", "id", true, false, false)))
    requires ts == [PathToken("index", "index", "/", "", None), t1]
    ensures PathFactory(ts) == ":id"
  {
    IdElements(t1);
    assert ts[1..] == [t1];
    assert Elements(ts) == [] + Elements([t1]);
    assert Join([":id"], "/") == ":id";
    assert '+' !in ":id";
  }

  lemma IdElements(t1: PathToken)
    requires t1 == PathToken("[id]", "[id]", "[id]", "", Some(Param("id", "id", true, false, false)))
    ensures Elements([t1]) == [":id"]
  {
    assert ShapeOf(t1) == RequiredShape("id");
    assert Segment(t1) == [":" + "id"];
    assert ":" + "id" == ":id";
    assert Elements([t1]) == [":id"] + Elements([]);
  }

  // ---------------------------------------------------------------------------
  // The router table: `routes` in `generateIndexFiles`

  datatype IndexRoute = IndexRoute(route: PageRoute, path: string)

  /** A page route with its router path `join("/", pathFactory(route.pathTokens))`. */
  function IndexRouteOf(p: PageRoute): IndexRoute {
    IndexRoute(p, "/" + PathFactory(p.entry.pathTokens))
  }

  function IndexKey(r: IndexRoute): SortKey {
    SortKey(StaticSegments(r.route.entry.pathTokens), r.path)
  }

  /** The page routes with their paths, in entry order. */
  function PageRecords(es: seq<RouteResolverEntry>): (r: seq<IndexRoute>)
    ensures |r| == |Pages(es)|
    ensures forall k :: 0 <= k < |r| ==> r[k] == IndexRouteOf(Pages(es)[k])
  {
    var ps := Pages(es);
    seq(|ps|, k requires 0 <= k < |ps| => IndexRouteOf(ps[k]))
  }

  function IndexRoutes(es: seq<RouteResolverEntry>): seq<IndexRoute> {
    SortBy(PageRecords(es), IndexKey)
  }

  /** The table holds exactly the page routes, each once per entry, with their
      router paths; a route with more static segments always comes first, and
      routes with as many are ordered by path. */
  lemma IndexRoutesSpec(es: seq<RouteResolverEntry>)
    ensures multiset(IndexRoutes(es)) == multiset(PageRecords(es))
    ensures forall p :: PageEntry(p) in es ==> IndexRouteOf(p) in IndexRoutes(es)
    ensures forall x :: x in IndexRoutes(es) ==> PageEntry(x.route) in es && x == IndexRouteOf(x.route)
    ensures Sorted(IndexRoutes(es), IndexKey)
    ensures forall i, j :: (0 <= i < |IndexRoutes(es)| && 0 <= j < |IndexRoutes(es)|
                            && IndexKey(IndexRoutes(es)[i]).statics > IndexKey(IndexRoutes(es)[j]).statics) ==> i < j
  {
    var recs := PageRecords(es);
    SortBySpec(recs, IndexKey);
    SortedStaticsFirst(IndexRoutes(es), IndexKey);
    forall p | PageEntry(p) in es ensures IndexRouteOf(p) in recs {
      var k :| 0 <= k < |Pages(es)| && Pages(es)[k] == p;
      assert recs[k] == IndexRouteOf(p);
    }
    forall x | x in recs ensures PageEntry(x.route) in es && x == IndexRouteOf(x.route) {
      var k :| 0 <= k < |recs| && recs[k] == x;
      assert Pages(es)[k] in Pages(es);
    }
  }

  // ---------------------------------------------------------------------------
  // `apiRoutes`: the API routes usable with `useResource`

  /** Handles GET and takes no required parameter. */
  predicate UsesResource(a: ApiRoute) {
    "GET" in a.methods && a.optionalParams
  }

  function Eligible(apis: seq<ApiRoute>): (r: seq<ApiRoute>)
    ensures forall a :: a in r <==> a in apis && UsesResource(a)
    decreases |apis|
  {
    if |apis| == 0 then []
    else
      assert forall a :: a in apis <==> a == apis[0] || a in apis[1..];
      (if UsesResource(apis[0]) then [apis[0]] else []) + Eligible(apis[1..])
  }

  /** The comparator looks only at the name. */
  function NameKey(a: ApiRoute): SortKey {
    SortKey(0, a.entry.name)
  }

  function ResourceRoutes(es: seq<RouteResolverEntry>): seq<ApiRoute> {
    SortBy(Eligible(Apis(es)), NameKey)
  }

  /** Exactly the API entries that handle GET without required parameters, each as
      often as it occurs, ordered by name. */
  lemma ResourceRoutesSpec(es: seq<RouteResolverEntry>)
    ensures var r := ResourceRoutes(es);
      && (forall a :: a in r <==> ApiEntry(a) in es && UsesResource(a))
      && multiset(r) == multiset(Eligible(Apis(es)))
      && (forall i, j :: 0 <= i < j < |r| ==> TextLe(r[i].entry.name, r[j].entry.name))
  {
    SortBySpec(Eligible(Apis(es)), NameKey);
  }

  // ---------------------------------------------------------------------------
  // Page templates

  datatype PageTemplate = WelcomePage | CustomPage(text: string) | DefaultPage

  /** The template a page source file is filled from. */
  function PageTemplateFor(name: string, templates: seq<(string, string)>,
                           matches: (string, string) -> bool): PageTemplate {
    if name == "index" then WelcomePage
    else match FirstMatch(templates, name, matches)
      case Some(it) => if it.1 != "" then CustomPage(it.1) else DefaultPage
      case None => DefaultPage
  }

  /** The `index` route gets the welcome page; any other route the first custom
      template whose pattern matches its name, unless that template is empty, and
      otherwise the default page. */
  lemma PageTemplateSpec(name: string, templates: seq<(string, string)>,
                         matches: (string, string) -> bool, i: nat)
    ensures PageTemplateFor(name, templates, matches) == WelcomePage <==> name == "index"
    ensures name != "index" && i < |templates| && matches(templates[i].0, name)
      && (forall j :: 0 <= j < i ==> !matches(templates[j].0, name))
      ==> PageTemplateFor(name, templates, matches)
          == (if templates[i].1 != "" then CustomPage(templates[i].1) else DefaultPage)
    ensures name != "index" && (forall it :: it in templates ==> !matches(it.0, name))
      ==> PageTemplateFor(name, templates, matches) == DefaultPage
  {
    if name != "index" && i < |templates| && matches(templates[i].0, name)
       && (forall j :: 0 <= j < i ==> !matches(templates[j].0, name)) {
      FirstMatchIsFirst(templates, name, matches, i);
    }
  }

  // ---------------------------------------------------------------------------
  // The watch handler

  /** What the factory closes over: resolved folders, the user's templates with
      the glob matcher, the generator list's SSR flag, the command, and the
      renderer for each kind of file. */
  datatype Setup = Setup(
    srcDir: string,        // resolve("@")
    entryDir: string,      // defaults.entryDir
    pagesDir: string,      // resolve("pagesDir")
    libDir: string,        // resolve("libDir", sourceFolder)
    pagesLibDir: string,   // defaults.pagesLibDir
    templates: seq<(string, string)>,
    matches: (string, string) -> bool,
    hasSsr: bool,          // generators.some((e) => e.kind === "ssr")
    command: string,
    renderScaffold: string -> string,
    renderPage: (PageTemplate, PageRoute) -> string,
    renderIndex: (string, IndexContext) -> string)

  /** The context the library index files are rendered with. */
  datatype IndexContext = IndexContext(routes: seq<IndexRoute>, apiRoutes: seq<ApiRoute>, ssr: bool)

  function Context(s: Setup, es: seq<RouteResolverEntry>): IndexContext {
    IndexContext(IndexRoutes(es), ResourceRoutes(es), s.hasSsr && s.command == "build")
  }

  /** A page source file, filled only while blank. */
  function PageWrite(s: Setup, p: PageRoute): Write {
    Write(JoinPath([s.pagesDir, p.entry.file]),
          s.renderPage(PageTemplateFor(p.entry.name, s.templates, s.matches), p), WhenBlank)
  }

  /** `generatePublicFiles(entries)`: one write per page entry, in order. */
  function PublicWrites(s: Setup, es: seq<RouteResolverEntry>): seq<Write>
    decreases |es|
  {
    if |es| == 0 then []
    else
      var last := es[|es| - 1];
      PublicWrites(s, es[..|es| - 1]) + (if last.PageEntry? then [PageWrite(s, last.page)] else [])
  }

  function IndexFiles(s: Setup): seq<string> {
    ["{solid}/index.ts", "{solid}/use.ts", s.pagesLibDir + ".ts"]
  }

  /** `generateIndexFiles(entries)`: the three library files, always replaced. */
  function IndexWrites(s: Setup, es: seq<RouteResolverEntry>): seq<Write> {
    var fs := IndexFiles(s);
    var ctx := Context(s, es);
    seq(|fs|, k requires 0 <= k < |fs| => Write(JoinPath([s.libDir, fs[k]]), s.renderIndex(fs[k], ctx), Always))
  }

  /** Page files are filled on the first call and on create events only. */
  predicate FillsPages(event: Option<WatcherEvent>) {
    event.None? || event.value.kind == Create
  }

  function HandlerWrites(s: Setup, es: seq<RouteResolverEntry>, event: Option<WatcherEvent>): seq<Write> {
    (if FillsPages(event) then PublicWrites(s, es) else []) + IndexWrites(s, es)
  }

  method GeneratePublicFiles(files: Files, s: Setup, es: seq<RouteResolverEntry>)
    modifies files
    ensures files.contents == Apply(old(files.contents), PublicWrites(s, es))
  {
    for i := 0 to |es|
      invariant files.contents == Apply(old(files.contents), PublicWrites(s, es[..i]))
    {
      assert es[..i + 1][..i] == es[..i];
      assert es[..i + 1][|es[..i + 1]| - 1] == es[i];
      if es[i].PageEntry? {
        var w := PageWrite(s, es[i].page);
        files.RenderToFile(w);
        ApplySnoc(old(files.contents), PublicWrites(s, es[..i]), w);
        assert PublicWrites(s, es[..i + 1]) == PublicWrites(s, es[..i]) + [w];
      } else {
        assert PublicWrites(s, es[..i + 1]) == PublicWrites(s, es[..i]) + [];
        assert PublicWrites(s, es[..i]) + [] == PublicWrites(s, es[..i]);
      }
    }
    assert es[..|es|] == es;
  }

  method GenerateIndexFiles(files: Files, s: Setup, es: seq<RouteResolverEntry>)
    modifies files
    ensures files.contents == Apply(old(files.contents), IndexWrites(s, es))
  {
    var ctx := Context(s, es);
    var fs := IndexFiles(s);
    ghost var ws := IndexWrites(s, es);
    for i := 0 to |fs|
      invariant files.contents == Apply(old(files.contents), ws[..i])
    {
      files.RenderToFile(Write(JoinPath([s.libDir, fs[i]]), s.renderIndex(fs[i], ctx), Always));
      ApplySnoc(old(files.contents), ws[..i], ws[i]);
      assert ws[..i + 1] == ws[..i] + [ws[i]];
    }
    assert ws[..|fs|] == ws;
  }

  /** `watchHandler(entries, event)`. */
  method WatchHandler(files: Files, s: Setup, es: seq<RouteResolverEntry>, event: Option<WatcherEvent>)
    modifies files
    ensures files.contents == Apply(old(files.contents), HandlerWrites(s, es, event))
  {
    if event.None? || event.value.kind == Create {
      GeneratePublicFiles(files, s, es);
    }
    ghost var mid := files.contents;
    GenerateIndexFiles(files, s, es);
    ApplyAppend(old(files.contents), if FillsPages(event) then PublicWrites(s, es) else [], IndexWrites(s, es));
  }

  // ---------------------------------------------------------------------------
  // What the handler does to the files

  predicate IsIndexPath(s: Setup, p: string) {
    p in [JoinPath([s.libDir, "{solid}/index.ts"]), JoinPath([s.libDir, "{solid}/use.ts"]),
          JoinPath([s.libDir, s.pagesLibDir + ".ts"])]
  }

  /** One write per page entry, in entry order. */
  lemma {:induction false} PublicWritesPages(s: Setup, es: seq<RouteResolverEntry>)
    ensures |PublicWrites(s, es)| == |Pages(es)|
    ensures forall k :: 0 <= k < |Pages(es)| ==> PublicWrites(s, es)[k] == PageWrite(s, Pages(es)[k])
    decreases |es|
  {
    if |es| > 0 {
      PublicWritesPages(s, es[..|es| - 1]);
    }
  }

  /** Outside the three library files, the handler only ever fills blank page
      files: a page file with any non-blank text is left as it is. */
  lemma HandlerKeepsEditedPages(s: Setup, es: seq<RouteResolverEntry>, event: Option<WatcherEvent>,
                                m: map<string, string>, p: string)
    requires p in m && !Blank(m[p]) && !IsIndexPath(s, p)
    ensures p in Apply(m, HandlerWrites(s, es, event))
    ensures Apply(m, HandlerWrites(s, es, event))[p] == m[p]
  {
    var pub := if FillsPages(event) then PublicWrites(s, es) else [];
    var idx := IndexWrites(s, es);
    PublicWritesBlank(s, es);
    ApplyKeepsRefused(m, pub, p);
    IndexWritesTargets(s, es, p);
    ApplyUntouched(Apply(m, pub), idx, p);
    ApplyAppend(m, pub, idx);
  }

  /** Every page write fills only a blank file. */
  lemma PublicWritesBlank(s: Setup, es: seq<RouteResolverEntry>)
    ensures forall k :: 0 <= k < |PublicWrites(s, es)| ==> PublicWrites(s, es)[k].rule == WhenBlank
  {
    PublicWritesPages(s, es);
  }

  /** The index writes name only the three library files. */
  lemma IndexWritesTargets(s: Setup, es: seq<RouteResolverEntry>, p: string)
    requires !IsIndexPath(s, p)
    ensures !Targets(IndexWrites(s, es), p)
  {
    var idx := IndexWrites(s, es);
    forall k | 0 <= k < |idx| ensures idx[k].path != p {
      assert idx[k].path == JoinPath([s.libDir, IndexFiles(s)[k]]);
    }
  }

  /** On update and delete events only the three library files can change. */
  lemma HandlerOnlyIndexOnChange(s: Setup, es: seq<RouteResolverEntry>, event: Option<WatcherEvent>,
                                 m: map<string, string>, p: string)
    requires event.Some? && event.value.kind != Create && !IsIndexPath(s, p)
    ensures p in Apply(m, HandlerWrites(s, es, event)) <==> p in m
    ensures p in m ==> Apply(m, HandlerWrites(s, es, event))[p] == m[p]
  {
    var ws := HandlerWrites(s, es, event);
    assert ws == IndexWrites(s, es);
    ApplyUntouched(m, ws, p);
  }

  /** On every call each library file is rendered from the current table, provided
      the three names are distinct. */
  lemma HandlerRegeneratesIndex(s: Setup, es: seq<RouteResolverEntry>, event: Option<WatcherEvent>,
                                m: map<string, string>, k: nat)
    requires k < 3
    requires s.pagesLibDir + ".ts" != "{solid}/index.ts" && s.pagesLibDir + ".ts" != "{solid}/use.ts"
    requires forall i, j :: 0 <= i < j < 3 ==> JoinPath([s.libDir, IndexFiles(s)[i]]) != JoinPath([s.libDir, IndexFiles(s)[j]])
    ensures var path := JoinPath([s.libDir, IndexFiles(s)[k]]);
      path in Apply(m, HandlerWrites(s, es, event))
      && Apply(m, HandlerWrites(s, es, event))[path] == s.renderIndex(IndexFiles(s)[k], Context(s, es))
  {
    var ws := HandlerWrites(s, es, event);
    var pub := if FillsPages(event) then PublicWrites(s, es) else [];
    var i := |pub| + k;
    assert ws[i] == IndexWrites(s, es)[k];
    ApplyLastAlways(m, ws, i);
  }

  // ---------------------------------------------------------------------------
  // Scaffolding

  const AppHtmlMarker := "<!--app-html-->"

  /** The files the factory scaffolds under the source folder; the server entry
      only when an SSR generator is configured. */
  function ScaffoldFiles(s: Setup): seq<string> {
    ["components/Link.tsx", "App.tsx", "router.tsx", JoinPath([s.entryDir, "client.tsx"]), "index.html"]
    + (if s.hasSsr then [JoinPath([s.entryDir, "server.ts"])] else [])
  }

  function ScaffoldRule(file: string): Rule {
    if file == "index.html" then WhenBlankOrLacks(AppHtmlMarker) else WhenBlank
  }

  function ScaffoldWrites(s: Setup): seq<Write> {
    var fs := ScaffoldFiles(s);
    seq(|fs|, k requires 0 <= k < |fs| => Write(JoinPath([s.srcDir, fs[k]]), s.renderScaffold(fs[k]), ScaffoldRule(fs[k])))
  }

  /** A scaffold file the user has written to is kept; `index.html` only while it
      still holds the app-html marker. */
  lemma ScaffoldKeepsUserFiles(s: Setup, m: map<string, string>, p: string)
    requires p in m && !Blank(m[p])
    requires p == JoinPath([s.srcDir, "index.html"]) ==> Contains(m[p], AppHtmlMarker)
    ensures p in Apply(m, ScaffoldWrites(s)) && Apply(m, ScaffoldWrites(s))[p] == m[p]
  {
    var ws := ScaffoldWrites(s);
    var fs := ScaffoldFiles(s);
    forall i | 0 <= i < |ws| && ws[i].path == p ensures !Allows(ws[i].rule, Some(m[p])) {
      assert ws[i] == Write(JoinPath([s.srcDir, fs[i]]), s.renderScaffold(fs[i]), ScaffoldRule(fs[i]));
    }
    ApplyKeepsRefused(m, ws, p);
  }
}

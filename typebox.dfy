/** The TypeBox generator (packages/generators/typebox-generator/src/factory.ts):
    for each API route it renders a `schemas.ts` library file from the route's
    methods, each paired with its first payload and response type, and from the
    list of resolved types. The watch handler decides which routes to
    regenerate. */
module TypeboxGenerator {
  import opened Wrappers
  import opened Types
  import opened Paths
  import opened RoutePaths
  import opened Output

  // ---------------------------------------------------------------------------
  // `routeMethods`

  /** `p` is what `payloadTypes.find((e) => e.method === m)` returns: the first
      payload type of method `m`, or nothing when there is none. */
  predicate FirstPayloadOf(ps: seq<PayloadType>, m: string, p: Option<PayloadType>) {
    match p
    case None => forall i :: 0 <= i < |ps| ==> ps[i].httpMethod != m
    case Some(x) =>
      exists i :: 0 <= i < |ps| && ps[i] == x && x.httpMethod == m
                  && forall j :: 0 <= j < i ==> ps[j].httpMethod != m
  }

  /** The same for response types. */
  predicate FirstResponseOf(rs: seq<ResponseType>, m: string, r: Option<ResponseType>) {
    match r
    case None => forall i :: 0 <= i < |rs| ==> rs[i].httpMethod != m
    case Some(x) =>
      exists i :: 0 <= i < |rs| && rs[i] == x && x.httpMethod == m
                  && forall j :: 0 <= j < i ==> rs[j].httpMethod != m
  }

  function FindPayload(ps: seq<PayloadType>, m: string): (r: Option<PayloadType>)
    ensures FirstPayloadOf(ps, m, r)
    decreases |ps|
  {
    if |ps| == 0 then None
    else if ps[0].httpMethod == m then
      Some(ps[0])
    else
      var r := FindPayload(ps[1..], m);
      if r.Some? then
        var i :| 0 <= i < |ps[1..]| && ps[1..][i] == r.value && r.value.httpMethod == m
                 && forall j :: 0 <= j < i ==> ps[1..][j].httpMethod != m;
        assert ps[i + 1] == r.value;
        assert forall j :: 0 <= j < i + 1 ==> ps[j].httpMethod != m by {
          forall j | 0 <= j < i + 1 ensures ps[j].httpMethod != m {
            if j > 0 { assert ps[j] == ps[1..][j - 1]; }
          }
        }
        r
      else
        assert forall i :: 0 <= i < |ps| ==> ps[i].httpMethod != m by {
          forall i | 0 <= i < |ps| ensures ps[i].httpMethod != m {
            if i > 0 { assert ps[i] == ps[1..][i - 1]; }
          }
        }
        r
  }

  function FindResponse(rs: seq<ResponseType>, m: string): (r: Option<ResponseType>)
    ensures FirstResponseOf(rs, m, r)
    decreases |rs|
  {
    if |rs| == 0 then None
    else if rs[0].httpMethod == m then
      Some(rs[0])
    else
      var r := FindResponse(rs[1..], m);
      if r.Some? then
        var i :| 0 <= i < |rs[1..]| && rs[1..][i] == r.value && r.value.httpMethod == m
                 && forall j :: 0 <= j < i ==> rs[1..][j].httpMethod != m;
        assert rs[i + 1] == r.value;
        assert forall j :: 0 <= j < i + 1 ==> rs[j].httpMethod != m by {
          forall j | 0 <= j < i + 1 ensures rs[j].httpMethod != m {
            if j > 0 { assert rs[j] == rs[1..][j - 1]; }
          }
        }
        r
      else
        assert forall i :: 0 <= i < |rs| ==> rs[i].httpMethod != m by {
          forall i | 0 <= i < |rs| ensures rs[i].httpMethod != m {
            if i > 0 { assert rs[i] == rs[1..][i - 1]; }
          }
        }
        r
  }

  /** One item of `routeMethods`. */
  datatype RouteMethod = RouteMethod(
    httpMethod: string,
    payloadType: Option<PayloadType>,
    responseType: Option<ResponseType>)

  /** One item per method of the route, in the route's order, each with the first
      payload type and the first response type declared for that method. */
  function RouteMethods(r: ApiRoute): (res: seq<RouteMethod>)
    ensures |res| == |r.methods|
    ensures forall k :: 0 <= k < |res| ==>
      && res[k].httpMethod == r.methods[k]
      && FirstPayloadOf(r.payloadTypes, r.methods[k], res[k].payloadType)
      && FirstResponseOf(r.responseTypes, r.methods[k], res[k].responseType)
  {
    seq(|r.methods|, k requires 0 <= k < |r.methods| =>
      RouteMethod(r.methods[k], FindPayload(r.payloadTypes, r.methods[k]),
                  FindResponse(r.responseTypes, r.methods[k])))
  }

  /** `find` is determined by the list: two first matches are the same. */
  lemma FirstPayloadUnique(ps: seq<PayloadType>, m: string, a: Option<PayloadType>, b: Option<PayloadType>)
    requires FirstPayloadOf(ps, m, a) && FirstPayloadOf(ps, m, b)
    ensures a == b
  {
    if a.Some? && b.Some? {
      var i :| 0 <= i < |ps| && ps[i] == a.value && a.value.httpMethod == m
               && forall j :: 0 <= j < i ==> ps[j].httpMethod != m;
      var k :| 0 <= k < |ps| && ps[k] == b.value && b.value.httpMethod == m
               && forall j :: 0 <= j < k ==> ps[j].httpMethod != m;
      assert i == k;
    }
  }

  // ---------------------------------------------------------------------------
  // `resolvedTypes`

  /** The present values of a list of optional ones, in order (`flatMap` dropping
      `undefined`). */
  function Somes<T(!new)>(xs: seq<Option<T>>): (r: seq<T>)
    ensures |r| <= |xs|
    ensures forall x :: x in r <==> Some(x) in xs
    decreases |xs|
  {
    if |xs| == 0 then []
    else
      assert forall o :: o in xs <==> o == xs[0] || o in xs[1..];
      (if xs[0].Some? then [xs[0].value] else []) + Somes(xs[1..])
  }

  lemma {:induction false} SomesAppend<T(!new)>(a: seq<Option<T>>, b: seq<Option<T>>)
    ensures Somes(a + b) == Somes(a) + Somes(b)
    decreases |a|
  {
    if |a| == 0 {
      assert a + b == b;
    } else {
      assert (a + b)[1..] == a[1..] + b;
      SomesAppend(a[1..], b);
    }
  }

  function PayloadSources(ps: seq<PayloadType>): (r: seq<Option<ResolvedType>>)
    ensures |r| == |ps| && forall k :: 0 <= k < |ps| ==> r[k] == ps[k].resolvedType
  {
    seq(|ps|, k requires 0 <= k < |ps| => ps[k].resolvedType)
  }

  function ResponseSources(rs: seq<ResponseType>): (r: seq<Option<ResolvedType>>)
    ensures |r| == |rs| && forall k :: 0 <= k < |rs| ==> r[k] == rs[k].resolvedType
  {
    seq(|rs| , k requires 0 <= k < |rs| => rs[k].resolvedType)
  }

  /** The resolved type with its text rewritten by `typeboxLiteralText`. */
  function Literal(t: ResolvedType, literal: string -> string): ResolvedType {
    ResolvedType(t.name, literal(t.text))
  }

  function Literals(ts: seq<ResolvedType>, literal: string -> string): (r: seq<ResolvedType>)
    ensures |r| == |ts| && forall k :: 0 <= k < |ts| ==> r[k] == Literal(ts[k], literal)
  {
    seq(|ts|, k requires 0 <= k < |ts| => Literal(ts[k], literal))
  }

  /** `resolvedTypes`: the params type, the payload types' and the response types'
      resolved types, the missing ones dropped, each text made a TypeBox literal. */
  function ResolvedTypes(r: ApiRoute, literal: string -> string): seq<ResolvedType> {
    Literals(Somes(TypeSources(r)), literal)
  }

  /** The optional resolved types of a route, before `undefined` is dropped. */
  function TypeSources(r: ApiRoute): seq<Option<ResolvedType>> {
    [r.params.resolvedType] + PayloadSources(r.payloadTypes) + ResponseSources(r.responseTypes)
  }

  /** The params type comes first, then the payload types, then the response types,
      each group in declaration order. */
  lemma ResolvedTypesOrder(r: ApiRoute, literal: string -> string)
    ensures ResolvedTypes(r, literal)
      == Literals(Somes([r.params.resolvedType]), literal)
         + Literals(Somes(PayloadSources(r.payloadTypes)), literal)
         + Literals(Somes(ResponseSources(r.responseTypes)), literal)
  {
    var a := [r.params.resolvedType];
    var b := PayloadSources(r.payloadTypes);
    var c := ResponseSources(r.responseTypes);
    SomesAppend(a + b, c);
    SomesAppend(a, b);
    var x := Somes(a);
    var y := Somes(b);
    var z := Somes(c);
    LiteralsAppend(x + y, z, literal);
    LiteralsAppend(x, y, literal);
  }

  lemma LiteralsAppend(x: seq<ResolvedType>, y: seq<ResolvedType>, literal: string -> string)
    ensures Literals(x + y, literal) == Literals(x, literal) + Literals(y, literal)
  {
  }

  /** A type is listed iff the params, some payload or some response of the route
      resolved to it. */
  lemma ResolvedTypesMembers(r: ApiRoute, t: ResolvedType)
    ensures t in Somes(TypeSources(r)) <==>
      || r.params.resolvedType == Some(t)
      || (exists k :: 0 <= k < |r.payloadTypes| && r.payloadTypes[k].resolvedType == Some(t))
      || (exists k :: 0 <= k < |r.responseTypes| && r.responseTypes[k].resolvedType == Some(t))
  {
    var a := [r.params.resolvedType];
    var b := PayloadSources(r.payloadTypes);
    var c := ResponseSources(r.responseTypes);
    assert Some(t) in a + b + c <==> Some(t) in a || Some(t) in b || Some(t) in c;
    if Some(t) in b {
      var k :| 0 <= k < |b| && b[k] == Some(t);
    }
    if Some(t) in c {
      var k :| 0 <= k < |c| && c[k] == Some(t);
    }
    if exists k :: 0 <= k < |r.payloadTypes| && r.payloadTypes[k].resolvedType == Some(t) {
      var k :| 0 <= k < |r.payloadTypes| && r.payloadTypes[k].resolvedType == Some(t);
      assert b[k] == Some(t);
    }
    if exists k :: 0 <= k < |r.responseTypes| && r.responseTypes[k].resolvedType == Some(t) {
      var k :| 0 <= k < |r.responseTypes| && r.responseTypes[k].resolvedType == Some(t);
      assert c[k] == Some(t);
    }
  }

  // ---------------------------------------------------------------------------
  // `generateLibFiles` and `watchHandler`

  /** What the generator is given: the API library folder, the literal-text
      rewriter and the schemas template with its rendering. */
  datatype Setup = Setup(
    apiLibDir: string,
    literal: string -> string,
    renderSchemas: (ApiRoute, seq<RouteMethod>, seq<ResolvedType>) -> string)

  /** `resolve("apiLibDir", route.importPath, "schemas.ts")`. */
  function SchemaPath(s: Setup, r: ApiRoute): string {
    JoinPath([s.apiLibDir, r.entry.importPath, "schemas.ts"])
  }

  function SchemaWrite(s: Setup, r: ApiRoute): Write {
    Write(SchemaPath(s, r), s.renderSchemas(r, RouteMethods(r), ResolvedTypes(r, s.literal)), Always)
  }

  /** The calls `generateLibFiles(entries)` makes: one per API entry, in order. */
  function SchemaWrites(s: Setup, es: seq<RouteResolverEntry>): seq<Write>
    decreases |es|
  {
    if |es| == 0 then []
    else
      var last := es[|es| - 1];
      SchemaWrites(s, es[..|es| - 1]) + (if last.ApiEntry? then [SchemaWrite(s, last.api)] else [])
  }

  /** The entries an update of `file` concerns: API routes defined in that file or
      referencing it. */
  function Affected(es: seq<RouteResolverEntry>, file: string): (r: seq<RouteResolverEntry>)
    ensures forall e :: e in r <==>
      e in es && e.ApiEntry? && (e.api.entry.fileFullpath == file || file in e.api.referencedFiles)
    decreases |es|
  {
    if |es| == 0 then []
    else
      assert forall e :: e in es <==> e == es[0] || e in es[1..];
      var e := es[0];
      (if e.ApiEntry? && (e.api.entry.fileFullpath == file || file in e.api.referencedFiles) then [e] else [])
      + Affected(es[1..], file)
  }

  /** The entries `watchHandler(entries, event)` hands to `generateLibFiles`. */
  function Selection(es: seq<RouteResolverEntry>, event: Option<WatcherEvent>): seq<RouteResolverEntry> {
    match event
    case None => es
    case Some(WatcherEvent(Update, f)) => Affected(es, f)
    case Some(_) => []
  }

  /** The routes whose schemas a call regenerates: every API route on the first call,
      on an update the API routes defined in or referencing the updated file, and
      none on create or delete. Page entries never. */
  lemma SelectionSpec(es: seq<RouteResolverEntry>, event: Option<WatcherEvent>)
    ensures forall r :: r in Apis(Selection(es, event)) <==>
      && ApiEntry(r) in es
      && (|| event.None?
          || (event.value.kind == Update
              && (r.entry.fileFullpath == event.value.file || event.value.file in r.referencedFiles)))
  {
  }

  method GenerateLibFiles(files: Files, s: Setup, es: seq<RouteResolverEntry>)
    modifies files
    ensures files.contents == Apply(old(files.contents), SchemaWrites(s, es))
  {
    for i := 0 to |es|
      invariant files.contents == Apply(old(files.contents), SchemaWrites(s, es[..i]))
    {
      assert es[..i + 1][..i] == es[..i];
      assert es[..i + 1][|es[..i + 1]| - 1] == es[i];
      if es[i].ApiEntry? {
        var w := SchemaWrite(s, es[i].api);
        files.RenderToFile(w);
        ApplySnoc(old(files.contents), SchemaWrites(s, es[..i]), w);
        assert SchemaWrites(s, es[..i + 1]) == SchemaWrites(s, es[..i]) + [w];
      } else {
        assert SchemaWrites(s, es[..i + 1]) == SchemaWrites(s, es[..i]) + [];
        assert SchemaWrites(s, es[..i]) + [] == SchemaWrites(s, es[..i]);
      }
    }
    assert es[..|es|] == es;
  }

  /** `watchHandler(entries, event)`. */
  method WatchHandler(files: Files, s: Setup, es: seq<RouteResolverEntry>, event: Option<WatcherEvent>)
    modifies files
    ensures files.contents == Apply(old(files.contents), SchemaWrites(s, Selection(es, event)))
  {
    if event.Some? {
      if event.value.kind == Update {
        GenerateLibFiles(files, s, Affected(es, event.value.file));
      }
    } else {
      GenerateLibFiles(files, s, es);
    }
  }

  // ---------------------------------------------------------------------------
  // What the handler does to the files

  lemma {:induction false} SchemaWritesApis(s: Setup, es: seq<RouteResolverEntry>)
    ensures |SchemaWrites(s, es)| == |Apis(es)|
    ensures forall k :: 0 <= k < |Apis(es)| ==> SchemaWrites(s, es)[k] == SchemaWrite(s, Apis(es)[k])
    decreases |es|
  {
    if |es| > 0 {
      SchemaWritesApis(s, es[..|es| - 1]);
    }
  }

  /** Distinct API routes have distinct schema files. */
  ghost predicate DistinctSchemas(s: Setup, es: seq<RouteResolverEntry>) {
    forall a, b :: ApiEntry(a) in es && ApiEntry(b) in es && SchemaPath(s, a) == SchemaPath(s, b) ==> a == b
  }

  /** After the loop, every API route's schema file holds that route's schemas. */
  lemma {:induction false} SchemaWritesFill(s: Setup, es: seq<RouteResolverEntry>, m: map<string, string>,
                                            r: ApiRoute)
    requires ApiEntry(r) in es && DistinctSchemas(s, es)
    ensures SchemaPath(s, r) in Apply(m, SchemaWrites(s, es))
    ensures Apply(m, SchemaWrites(s, es))[SchemaPath(s, r)]
      == s.renderSchemas(r, RouteMethods(r), ResolvedTypes(r, s.literal))
    decreases |es|
  {
    var init := es[..|es| - 1];
    var last := es[|es| - 1];
    assert es == init + [last];
    if last.ApiEntry? {
      ApplySnoc(m, SchemaWrites(s, init), SchemaWrite(s, last.api));
      if last != ApiEntry(r) {
        assert ApiEntry(r) in init;
        SchemaWritesFill(s, init, m, r);
      }
    } else {
      assert ApiEntry(r) in init;
      assert SchemaWrites(s, es) == SchemaWrites(s, init) + [];
      assert SchemaWrites(s, init) + [] == SchemaWrites(s, init);
      SchemaWritesFill(s, init, m, r);
    }
  }

  /** The handler rewrites the schema file of every selected route and leaves every
      file outside the selected routes' schema files as it was. */
  lemma HandlerFiles(s: Setup, es: seq<RouteResolverEntry>, event: Option<WatcherEvent>,
                     m: map<string, string>, p: string)
    requires DistinctSchemas(s, es)
    ensures forall r :: ApiEntry(r) in Selection(es, event) ==>
      && SchemaPath(s, r) in Apply(m, SchemaWrites(s, Selection(es, event)))
      && Apply(m, SchemaWrites(s, Selection(es, event)))[SchemaPath(s, r)]
         == s.renderSchemas(r, RouteMethods(r), ResolvedTypes(r, s.literal))
    ensures (forall r :: ApiEntry(r) in Selection(es, event) ==> SchemaPath(s, r) != p) ==>
      && (p in Apply(m, SchemaWrites(s, Selection(es, event))) <==> p in m)
      && (p in m ==> Apply(m, SchemaWrites(s, Selection(es, event)))[p] == m[p])
  {
    var sel := Selection(es, event);
    var ws := SchemaWrites(s, sel);
    assert forall e :: e in sel ==> e in es;
    forall r | ApiEntry(r) in sel
      ensures SchemaPath(s, r) in Apply(m, ws)
      ensures Apply(m, ws)[SchemaPath(s, r)] == s.renderSchemas(r, RouteMethods(r), ResolvedTypes(r, s.literal))
    {
      SchemaWritesFill(s, sel, m, r);
    }
    if forall r :: ApiEntry(r) in sel ==> SchemaPath(s, r) != p {
      SchemaWritesApis(s, sel);
      forall i | 0 <= i < |ws| ensures ws[i].path != p {
        assert Apis(sel)[i] in Apis(sel);
      }
      ApplyUntouched(m, ws, p);
    }
  }
}

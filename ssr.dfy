/** The SSR generator (packages/generators/ssr-generator/src/factory.ts): for a
    production build it lists, per page route, the router patterns the server
    must answer and the matching manifest paths. A route whose tokens end in
    optional or rest parameters answers one pattern per prefix that stops just
    before such a parameter, plus the full pattern. */
module SsrGenerator {
  import opened Wrappers
  import opened Text
  import opened PathTokens
  import opened Types
  import opened Paths
  import opened RoutePaths

  // ---------------------------------------------------------------------------
  // `generatePathPattern`

  /** One element of the pattern before joining. The element for the index
      token `/` is an empty array, which `join` turns into an empty string. */
  function Element(t: PathToken): string {
    match ShapeOf(t)
    case RestShape(n) => "{/*" + n + "}"
    case OptionalShape(n) => "{/:" + n + "}"
    case RequiredShape(n) => ":" + n
    case StaticShape(p) => if p == "/" then "" else p
  }

  function Elements(ts: seq<PathToken>): (r: seq<string>)
    ensures |r| == |ts|
    ensures forall k :: 0 <= k < |ts| ==> r[k] == Element(ts[k])
  {
    seq(|ts|, k requires 0 <= k < |ts| => Element(ts[k]))
  }

  /** `.replace(/\/\{/g, "{")`: a left-to-right scan that drops the `/` of each
      `/{` it meets and resumes after the `{`. */
  function Collapse(s: string): (r: string)
    ensures |r| <= |s|
    decreases |s|
  {
    if |s| < 2 then s
    else if s[0] == '/' && s[1] == '{' then "{" + Collapse(s[2..])
    else [s[0]] + Collapse(s[1..])
  }

  /** The router pattern of a token list. */
  function Pattern(ts: seq<PathToken>): string {
    EscapePlus(Collapse(Join(Elements(ts), "/")))
  }

  /** The same pattern described element by element: elements are separated by
      `/`, except that an element opening a `{...}` group is attached directly
      to the one before it. */
  function Glue(es: seq<string>): string
    decreases |es|
  {
    if |es| == 0 then ""
    else if |es| == 1 then es[0]
    else es[0] + (if |es[1]| > 0 && es[1][0] == '{' then "" else "/") + Glue(es[1..])
  }

  /** No `/{` inside the text and no `/` at its end. */
  predicate Clean(e: string) {
    && (forall i :: 0 <= i < |e| - 1 ==> !(e[i] == '/' && e[i + 1] == '{'))
    && (|e| > 0 ==> e[|e| - 1] != '/')
  }

  lemma {:induction false} CollapseClean(x: string, y: string)
    requires Clean(x)
    ensures Collapse(x + y) == x + Collapse(y)
    decreases |x|
  {
    if |x| == 0 {
      assert x + y == y;
    } else {
      var s := x + y;
      assert s[0] == x[0];
      assert s[1..] == x[1..] + y;
      assert x == [x[0]] + x[1..];
      assert Clean(x[1..]) by {
        assert forall i :: 0 <= i < |x[1..]| ==> x[1..][i] == x[i + 1];
      }
      if |x| == 1 {
        assert x[0] != '/';
      } else {
        assert s[1] == x[1];
        assert !(x[0] == '/' && x[1] == '{');
      }
      CollapseClean(x[1..], y);
      if |s| >= 2 {
        assert Collapse(s) == [s[0]] + Collapse(s[1..]);
      } else {
        assert y == [] && s == x;
      }
    }
  }

  lemma CollapseSlash(y: string)
    ensures Collapse("/" + y) == if |y| > 0 && y[0] == '{' then Collapse(y) else "/" + Collapse(y)
  {
    var s := "/" + y;
    if |y| == 0 {
      assert s == "/";
    } else {
      assert s[0] == '/' && s[1] == y[0];
      assert s[1..] == y;
      if y[0] == '{' {
        assert s[2..] == y[1..];
        assert Collapse(s) == "{" + Collapse(y[1..]);
        if |y| >= 2 {
          assert Collapse(y) == [y[0]] + Collapse(y[1..]);
        } else {
          assert y == "{" && y[1..] == "";
        }
      } else {
        assert Collapse(s) == [s[0]] + Collapse(s[1..]);
      }
    }
  }

  lemma JoinHead(es: seq<string>)
    requires |es| > 0
    ensures |es[0]| > 0 ==> |Join(es, "/")| > 0 && Join(es, "/")[0] == es[0][0]
    ensures es[0] == "" && |es| > 1 ==> |Join(es, "/")| > 0 && Join(es, "/")[0] == '/'
    ensures es[0] == "" && |es| == 1 ==> Join(es, "/") == ""
  {
  }

  /** Collapsing a join past its clean first element. */
  lemma CollapseJoinStep(es: seq<string>)
    requires |es| > 1 && Clean(es[0])
    ensures Collapse(Join(es, "/")) ==
      es[0] + (if |es[1]| > 0 && es[1][0] == '{' then "" else "/") + Collapse(Join(es[1..], "/"))
  {
    var j := Join(es[1..], "/");
    var sep := if |es[1]| > 0 && es[1][0] == '{' then "" else "/";
    assert Collapse(Join(es, "/")) == es[0] + Collapse("/" + j) by {
      assert Join(es, "/") == es[0] + ("/" + j);
      CollapseClean(es[0], "/" + j);
    }
    assert Collapse("/" + j) == sep + Collapse(j) by {
      CollapseSlash(j);
      BraceHead(es[1..]);
      assert "" + Collapse(j) == Collapse(j);
    }
  }

  /** A join opens with `{` exactly when its first element does. */
  lemma BraceHead(es: seq<string>)
    requires |es| > 0
    ensures (|Join(es, "/")| > 0 && Join(es, "/")[0] == '{') <==> (|es[0]| > 0 && es[0][0] == '{')
  {
    JoinHead(es);
  }

  /** Collapsing the joined elements is gluing them, when no element carries a
      stray `/` of its own. */
  lemma {:induction false} CollapseJoin(es: seq<string>)
    requires forall k :: 0 <= k < |es| ==> Clean(es[k])
    ensures Collapse(Join(es, "/")) == Glue(es)
    decreases |es|
  {
    if |es| == 1 {
      CollapseClean(es[0], "");
      assert es[0] + "" == es[0];
    } else if |es| > 1 {
      CollapseJoinStep(es);
      CollapseJoin(es[1..]);
    }
  }

  /** A token whose names and static text contain no `/`; every token of a
      route path is one (`TokensSlashFree`). */
  predicate SlashFree(t: PathToken) {
    match ShapeOf(t)
    case StaticShape(p) => p == "/" || '/' !in p
    case RequiredShape(n) => '/' !in n
    case OptionalShape(n) => '/' !in n
    case RestShape(n) => '/' !in n
  }

  lemma ElementClean(t: PathToken)
    requires SlashFree(t)
    ensures Clean(Element(t))
  {
  }

  /** The tokens of a route path contain no `/`. */
  lemma TokensSlashFree(path: string)
    ensures forall k :: 0 <= k < |Tokens(path)| ==> SlashFree(Tokens(path)[k])
  {
    var segs := Split(path, '/');
    forall k | 0 <= k < |Tokens(path)| ensures SlashFree(Tokens(path)[k]) {
      var t := MakeToken(segs[k], k);
      assert '/' !in segs[k];
      if t.param.Some? {
        ParamNameWithin(segs[k], k);
        assert '/' !in t.param.value.name;
      }
    }
  }

  /** The pattern of a route: its elements glued, then `+` escaped. */
  lemma PatternGlue(ts: seq<PathToken>)
    requires forall k :: 0 <= k < |ts| ==> SlashFree(ts[k])
    ensures Pattern(ts) == EscapePlus(Glue(Elements(ts)))
  {
    var es := Elements(ts);
    forall k | 0 <= k < |es| ensures Clean(es[k]) {
      ElementClean(ts[k]);
    }
    CollapseJoin(es);
  }

  /** The scan drops the `/` in front of every `{` of its input, yet the output
      may contain `/{` again. */
  lemma CollapseRescan()
    ensures Collapse("//{") == "/{"
  {
    assert "//{"[1..] == "/{";
    assert "/{"[2..] == "";
  }

  // ---------------------------------------------------------------------------
  // `generatePathVariations` and `generateManifestPathVariations`

  /** An optional or a rest parameter. */
  predicate Trailing(t: PathToken) {
    t.param.Some? && (t.param.value.isOptional || t.param.value.isRest)
  }

  /** Token `i` ends a variation: it is the last one, or the next one is optional
      or rest. */
  predicate Selected(ts: seq<PathToken>, i: nat)
    requires i < |ts|
  {
    i == |ts| - 1 || Trailing(ts[i + 1])
  }

  /** The indices below `n` that end a variation, in order. */
  function Ends(ts: seq<PathToken>, n: nat): (r: seq<nat>)
    requires n <= |ts|
    ensures forall k :: 0 <= k < |r| ==> r[k] < n
    decreases n
  {
    if n == 0 then []
    else Ends(ts, n - 1) + (if Selected(ts, n - 1) then [n - 1] else [])
  }

  /** The router patterns of a page route, one per selected prefix. */
  function Variations(ts: seq<PathToken>): (r: seq<string>)
    ensures |r| == |Ends(ts, |ts|)|
  {
    var ends := Ends(ts, |ts|);
    seq(|ends|, k requires 0 <= k < |ends| => Pattern(ts[..ends[k] + 1]))
  }

  /** The manifest paths of a page route, one per selected prefix:
      `join(pagesDir, ...origs)`. */
  function Manifest(pagesDir: string, ts: seq<PathToken>): (r: seq<string>)
    ensures |r| == |Ends(ts, |ts|)|
  {
    var ends := Ends(ts, |ts|);
    seq(|ends|, k requires 0 <= k < |ends| => JoinPath([pagesDir] + Origs(ts[..ends[k] + 1])))
  }

  /** The ends are strictly increasing and are exactly the selected indices. */
  lemma {:induction false} EndsSpec(ts: seq<PathToken>, n: nat)
    requires n <= |ts|
    ensures forall a, b :: 0 <= a < b < |Ends(ts, n)| ==> Ends(ts, n)[a] < Ends(ts, n)[b]
    ensures forall i :: 0 <= i < n ==> (i in Ends(ts, n) <==> Selected(ts, i))
    decreases n
  {
    if n > 0 {
      EndsSpec(ts, n - 1);
    }
  }

  /** The number of optional or rest tokens among `ts[1..n]`. */
  function TrailingCount(ts: seq<PathToken>, n: nat): nat
    requires n <= |ts|
    decreases n
  {
    if n <= 1 then 0
    else TrailingCount(ts, n - 1) + (if Trailing(ts[n - 1]) then 1 else 0)
  }

  lemma {:induction false} EndsCountBelow(ts: seq<PathToken>, n: nat)
    requires n < |ts|
    ensures |Ends(ts, n)| == TrailingCount(ts, n + 1)
    decreases n
  {
    if n > 0 {
      EndsCountBelow(ts, n - 1);
    }
  }

  /** A route has one variation for the full path plus one per optional or rest
      parameter after its first token. */
  lemma VariationCount(pagesDir: string, ts: seq<PathToken>)
    requires |ts| > 0
    ensures |Variations(ts)| == |Manifest(pagesDir, ts)| == 1 + TrailingCount(ts, |ts|)
  {
    EndsCountBelow(ts, |ts| - 1);
  }

  /** The last variation is the route's full pattern, the last manifest path
      its full path under the pages folder. */
  lemma LastVariation(pagesDir: string, ts: seq<PathToken>)
    requires |ts| > 0
    ensures |Variations(ts)| > 0
    ensures Variations(ts)[|Variations(ts)| - 1] == Pattern(ts)
    ensures Manifest(pagesDir, ts)[|Manifest(pagesDir, ts)| - 1] == JoinPath([pagesDir] + Origs(ts))
  {
    assert ts[..|ts|] == ts;
  }

  /** Pattern and manifest path of the same variation end at the same token, and
      no token missing from a variation's prefix is required or static. */
  lemma VariationsAligned(pagesDir: string, ts: seq<PathToken>, k: nat)
    requires k < |Variations(ts)|
    ensures |Manifest(pagesDir, ts)| == |Variations(ts)|
    ensures var e := Ends(ts, |ts|)[k];
            && Variations(ts)[k] == Pattern(ts[..e + 1])
            && Manifest(pagesDir, ts)[k] == JoinPath([pagesDir] + Origs(ts[..e + 1]))
            && (e + 1 < |ts| ==> Trailing(ts[e + 1]))
  {
    var e := Ends(ts, |ts|)[k];
    EndsSpec(ts, |ts|);
    assert e in Ends(ts, |ts|);
  }

  /** `a/[[b]]`: the prefix `a` and then the full pattern with the optional group
      attached to `a`, shortest first. */
  lemma OptionalTailExample()
    ensures Variations([StaticToken("a"), OptionalToken("b")]) == ["a", "a{/:b}"]
  {
    var ts := [StaticToken("a"), OptionalToken("b")];
    var v := Variations(ts);
    ExampleEnds();
    assert |v| == 2;
    assert v[0] == "a" by {
      assert ts[..1] == [StaticToken("a")];
      ExamplePrefixPattern();
    }
    assert v[1] == "a{/:b}" by {
      assert ts[..2] == ts;
      ExampleFullPattern();
    }
  }

  lemma ExampleEnds()
    ensures Ends([StaticToken("a"), OptionalToken("b")], 2) == [0, 1]
  {
    var ts := [StaticToken("a"), OptionalToken("b")];
    assert Selected(ts, 0) && Selected(ts, 1);
    assert Ends(ts, 1) == [0];
  }

  lemma ExamplePrefixPattern()
    ensures Pattern([StaticToken("a")]) == "a"
  {
    assert Elements([StaticToken("a")]) == ["a"];
    assert EscapePlus("a") == "a";
  }

  lemma ExampleFullPattern()
    ensures Pattern([StaticToken("a"), OptionalToken("b")]) == "a{/:b}"
  {
    var ts := [StaticToken("a"), OptionalToken("b")];
    assert Element(ts[1]) == "{/:b}";
    assert Elements(ts) == ["a", "{/:b}"];
    assert Join(["a", "{/:b}"], "/") == "a/{/:b}";
    ExampleCollapse();
    assert '+' !in "a{/:b}";
  }

  lemma ExampleCollapse()
    ensures Collapse("a/{/:b}") == "a{/:b}"
  {
    assert "a/{/:b}"[1..] == "/{/:b}";
    assert "/{/:b}"[2..] == "/:b}";
    assert "/:b}"[1..] == ":b}";
    assert ":b}"[1..] == "b}";
    assert "b}"[1..] == "}";
  }

  function StaticToken(s: string): PathToken {
    PathToken(s, s, s, "", None)
  }

  function OptionalToken(n: string): PathToken {
    var o := "[[" + n + "]]";
    PathToken(o, o, o, "", Some(Param(n, n, false, true, false)))
  }

  // ---------------------------------------------------------------------------
  // `watchHandler`

  /** The page routes handed to the bundling step: only a production build with
      no watcher event bundles, and then every page route. */
  function BundledRoutes(es: seq<RouteResolverEntry>, event: Option<WatcherEvent>, command: string)
    : (r: Option<seq<PageRoute>>)
    ensures r.Some? <==> event.None? && command == "build"
    ensures r.Some? ==> forall p :: p in r.value <==> PageEntry(p) in es
  {
    if event.Some? || command != "build" then None else Some(Pages(es))
  }
}

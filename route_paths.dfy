/** What the generators share when they turn path tokens into router paths:
    the shape each token takes in a router pattern, the `+` escape every
    emitter applies to its output, the specificity order the route tables
    are sorted by, and the first-match lookup of user templates by route
    name. The emitters themselves live with their generators
    (packages/generators/{solid,api,ssr}-generator/src/factory.ts). */
module RoutePaths {
  import opened Wrappers
  import opened Text
  import opened PathTokens
  import opened Routes
  import opened Types

  /** What a token stands for in a router pattern. */
  datatype Shape = StaticShape(path: string) | RequiredShape(name: string)
                 | OptionalShape(name: string) | RestShape(name: string)

  /** The shape of a token, tested in the emitters' order: rest, then optional,
      then any other parameter, then the static path. */
  function ShapeOf(t: PathToken): Shape {
    match t.param
    case None => StaticShape(t.path)
    case Some(p) =>
      if p.isRest then RestShape(p.name)
      else if p.isOptional then OptionalShape(p.name)
      else RequiredShape(p.name)
  }

  /** The shapes of the tokens that contribute to a router path: every token but
      the `/` of an index segment. */
  function Shapes(ts: seq<PathToken>): seq<Shape>
    decreases |ts|
  {
    if |ts| == 0 then []
    else (if ShapeOf(ts[0]) == StaticShape("/") then [] else [ShapeOf(ts[0])]) + Shapes(ts[1..])
  }

  // ---------------------------------------------------------------------------
  // `.replace(/\+/g, "\\\\+")`: every `+` gets two backslashes in front.

  function EscapePlus(s: string): (r: string)
    ensures |r| >= |s|
    ensures '+' !in s ==> r == s
    decreases |s|
  {
    if |s| == 0 then ""
    else (if s[0] == '+' then "\\\\+" else [s[0]]) + EscapePlus(s[1..])
  }

  /** Reading an escaped path back: each `\\+` is one `+`. */
  function Unescape(s: string): string
    decreases |s|
  {
    if |s| == 0 then ""
    else if |s| >= 3 && s[..3] == "\\\\+" then "+" + Unescape(s[3..])
    else [s[0]] + Unescape(s[1..])
  }

  /** An escaped string never has a `+` in its first two places: every `+` in it
      comes after its two backslashes. */
  lemma EscapeHead(s: string)
    ensures |EscapePlus(s)| >= 1 ==> EscapePlus(s)[0] != '+'
    ensures |EscapePlus(s)| >= 2 ==> EscapePlus(s)[1] != '+'
  {
    if |s| > 0 && s[0] != '+' && |EscapePlus(s)| >= 2 {
      assert EscapePlus(s)[1] == EscapePlus(s[1..])[0];
    }
  }

  /** An escaped `+` reads back as one `+`. */
  lemma UnescapePlus(rest: string)
    ensures Unescape("\\\\+" + rest) == "+" + Unescape(rest)
  {
    var e := "\\\\+" + rest;
    assert e[..3] == "\\\\+" && e[3..] == rest;
  }

  /** Any other character in front of an escaped string reads back as itself. */
  lemma UnescapeOther(c: char, t: string)
    requires c != '+'
    ensures Unescape([c] + EscapePlus(t)) == [c] + Unescape(EscapePlus(t))
  {
    var rest := EscapePlus(t);
    var e := [c] + rest;
    EscapeHead(t);
    assert !(|e| >= 3 && e[..3] == "\\\\+") by {
      if |e| >= 3 {
        assert e[2] == rest[1];
      }
    }
    assert e[1..] == rest;
  }

  /** The escape loses nothing: it can be undone. */
  lemma {:induction false} EscapeRoundTrip(s: string)
    ensures Unescape(EscapePlus(s)) == s
    decreases |s|
  {
    if |s| > 0 {
      EscapeRoundTrip(s[1..]);
      if s[0] == '+' {
        UnescapePlus(EscapePlus(s[1..]));
      } else {
        UnescapeOther(s[0], s[1..]);
      }
      assert s == [s[0]] + s[1..];
    }
  }

  // ---------------------------------------------------------------------------
  // Specificity order of the generated route tables

  /** `staticSegments`: how many tokens are not parameters. */
  function StaticSegments(ts: seq<PathToken>): (r: nat)
    ensures r <= |ts|
    decreases |ts|
  {
    if |ts| == 0 then 0
    else (if ts[0].param.None? then 1 else 0) + StaticSegments(ts[1..])
  }

  /** Every token is counted either as static or in the parameter schema. */
  lemma {:induction false} StaticPlusParams(ts: seq<PathToken>)
    ensures StaticSegments(ts) + |ParamsSchema(ts)| == |ts|
    decreases |ts|
  {
    if |ts| > 0 {
      StaticPlusParams(ts[1..]);
    }
  }

  /** `a.localeCompare(b) <= 0`, taken as the order of character codes. */
  predicate TextLe(a: string, b: string)
    decreases |a|
  {
    |a| == 0 || (|b| > 0 && (a[0] < b[0] || (a[0] == b[0] && TextLe(a[1..], b[1..]))))
  }

  lemma {:induction false} TextLeTotal(a: string, b: string)
    ensures TextLe(a, b) || TextLe(b, a)
    decreases |a|
  {
    if |a| > 0 && |b| > 0 && a[0] == b[0] {
      TextLeTotal(a[1..], b[1..]);
    }
  }

  lemma {:induction false} TextLeTrans(a: string, b: string, c: string)
    requires TextLe(a, b) && TextLe(b, c)
    ensures TextLe(a, c)
    decreases |a|
  {
    if |a| > 0 && a[0] == b[0] && b[0] == c[0] {
      TextLeTrans(a[1..], b[1..], c[1..]);
    }
  }

  /** What the comparators look at: the static-segment count and the path. */
  datatype SortKey = SortKey(statics: nat, path: string)

  /** More static segments first; equal counts by path. */
  predicate KeyLe(a: SortKey, b: SortKey) {
    a.statics > b.statics || (a.statics == b.statics && TextLe(a.path, b.path))
  }

  lemma KeyLeTotal(a: SortKey, b: SortKey)
    ensures KeyLe(a, b) || KeyLe(b, a)
  {
    TextLeTotal(a.path, b.path);
  }

  lemma KeyLeTrans(a: SortKey, b: SortKey, c: SortKey)
    requires KeyLe(a, b) && KeyLe(b, c)
    ensures KeyLe(a, c)
  {
    if a.statics == b.statics == c.statics {
      TextLeTrans(a.path, b.path, c.path);
    }
  }

  predicate Sorted<T>(s: seq<T>, key: T -> SortKey) {
    forall i, j :: 0 <= i < j < |s| ==> KeyLe(key(s[i]), key(s[j]))
  }

  /** Insert `x` after every element that does not sort strictly after it. */
  function Insert<T>(x: T, s: seq<T>, key: T -> SortKey): (r: seq<T>)
    ensures |r| == |s| + 1
    decreases |s|
  {
    if |s| == 0 then [x]
    else if KeyLe(key(x), key(s[0])) && !KeyLe(key(s[0]), key(x)) then [x] + s
    else [s[0]] + Insert(x, s[1..], key)
  }

  lemma {:induction false} InsertPermutes<T>(x: T, s: seq<T>, key: T -> SortKey)
    ensures multiset(Insert(x, s, key)) == multiset(s) + multiset{x}
    decreases |s|
  {
    if |s| > 0 {
      assert s == [s[0]] + s[1..];
      InsertPermutes(x, s[1..], key);
    }
  }

  lemma {:induction false} InsertSorted<T>(x: T, s: seq<T>, key: T -> SortKey)
    requires Sorted(s, key)
    ensures Sorted(Insert(x, s, key), key)
    decreases |s|
  {
    if |s| > 0 {
      if KeyLe(key(x), key(s[0])) && !KeyLe(key(s[0]), key(x)) {
        forall k | 0 <= k < |s| ensures KeyLe(key(x), key(s[k])) {
          if k > 0 {
            KeyLeTrans(key(x), key(s[0]), key(s[k]));
          }
        }
        ConsSorted(x, s, key);
      } else {
        KeyLeTotal(key(x), key(s[0]));
        var rest := Insert(x, s[1..], key);
        InsertSorted(x, s[1..], key);
        InsertFrom(x, s[1..], key);
        forall k | 0 <= k < |rest| ensures KeyLe(key(s[0]), key(rest[k])) {
          if rest[k] != x {
            var m :| 0 <= m < |s[1..]| && s[1..][m] == rest[k];
            assert s[m + 1] == rest[k];
          }
        }
        ConsSorted(s[0], rest, key);
      }
    }
  }

  /** Every element of an insertion is the inserted one or one of the list. */
  lemma {:induction false} InsertFrom<T>(x: T, s: seq<T>, key: T -> SortKey)
    ensures forall k :: 0 <= k < |Insert(x, s, key)| ==> Insert(x, s, key)[k] == x || Insert(x, s, key)[k] in s
    decreases |s|
  {
    if |s| > 0 && !(KeyLe(key(x), key(s[0])) && !KeyLe(key(s[0]), key(x))) {
      InsertFrom(x, s[1..], key);
      var r := Insert(x, s, key);
      forall k | 0 < k < |r| ensures r[k] == x || r[k] in s {
        assert r[k] == Insert(x, s[1..], key)[k - 1];
      }
    }
  }

  /** A sorted list stays sorted behind an element that sorts before all of it. */
  lemma ConsSorted<T>(a: T, s: seq<T>, key: T -> SortKey)
    requires Sorted(s, key)
    requires forall k :: 0 <= k < |s| ==> KeyLe(key(a), key(s[k]))
    ensures Sorted([a] + s, key)
  {
    var r := [a] + s;
    forall i, j | 0 <= i < j < |r| ensures KeyLe(key(r[i]), key(r[j])) {
      assert r[j] == s[j - 1];
      if i > 0 {
        assert r[i] == s[i - 1];
      }
    }
  }

  /** `array.sort(comparator)` on the specificity order: an insertion sort. */
  function SortBy<T>(s: seq<T>, key: T -> SortKey): (r: seq<T>)
    ensures |r| == |s|
    decreases |s|
  {
    if |s| == 0 then [] else Insert(s[|s| - 1], SortBy(s[..|s| - 1], key), key)
  }

  /** The sorted table holds the same routes, each as often, in the order. */
  lemma {:induction false} SortBySpec<T>(s: seq<T>, key: T -> SortKey)
    ensures Sorted(SortBy(s, key), key)
    ensures multiset(SortBy(s, key)) == multiset(s)
    ensures forall x :: x in SortBy(s, key) <==> x in s
    decreases |s|
  {
    if |s| > 0 {
      var init := s[..|s| - 1];
      SortBySpec(init, key);
      InsertSorted(s[|s| - 1], SortBy(init, key), key);
      InsertPermutes(s[|s| - 1], SortBy(init, key), key);
      assert s == init + [s[|s| - 1]];
    }
    forall x ensures x in SortBy(s, key) <==> x in s {
      assert x in SortBy(s, key) <==> x in multiset(SortBy(s, key));
      assert x in s <==> x in multiset(s);
    }
  }

  /** In a sorted table an element with more static segments comes before one with
      fewer: the comparator's point, so that `/users/account` is tried before
      `/users/:id`. */
  lemma SortedStaticsFirst<T>(s: seq<T>, key: T -> SortKey)
    requires Sorted(s, key)
    ensures forall i, j :: 0 <= i < |s| && 0 <= j < |s| && key(s[i]).statics > key(s[j]).statics ==> i < j
  {
  }

  // ---------------------------------------------------------------------------
  // The entries a generator step works on

  /** The page routes among the entries, in order (the steps that `continue` past
      other kinds). */
  function Pages(es: seq<RouteResolverEntry>): (r: seq<PageRoute>)
    ensures |r| <= |es|
    ensures forall p :: p in r <==> PageEntry(p) in es
    decreases |es|
  {
    if |es| == 0 then []
    else
      var last := es[|es| - 1];
      assert forall e :: e in es <==> e in es[..|es| - 1] || e == last;
      Pages(es[..|es| - 1]) + (if last.PageEntry? then [last.page] else [])
  }

  /** The API routes among the entries, in order. */
  function Apis(es: seq<RouteResolverEntry>): (r: seq<ApiRoute>)
    ensures |r| <= |es|
    ensures forall a :: a in r <==> ApiEntry(a) in es
    decreases |es|
  {
    if |es| == 0 then []
    else
      var last := es[|es| - 1];
      assert forall e :: e in es <==> e in es[..|es| - 1] || e == last;
      Apis(es[..|es| - 1]) + (if last.ApiEntry? then [last.api] else [])
  }

  // ---------------------------------------------------------------------------
  // User templates: `customTemplates.find(([isMatch]) => isMatch(route.name))`

  /** The first `(pattern, template)` pair whose glob pattern matches `name`;
      `matches` stands for `picomatch(pattern)(name)`. */
  function FirstMatch(items: seq<(string, string)>, name: string, matches: (string, string) -> bool)
    : (r: Option<(string, string)>)
    ensures r.Some? ==> r.value in items && matches(r.value.0, name)
    ensures r.None? <==> forall it :: it in items ==> !matches(it.0, name)
    decreases |items|
  {
    if |items| == 0 then None
    else if matches(items[0].0, name) then Some(items[0])
    else
      assert forall it :: it in items <==> it == items[0] || it in items[1..];
      FirstMatch(items[1..], name, matches)
  }

  lemma {:induction false} FirstMatchIsFirst(items: seq<(string, string)>, name: string,
                                             matches: (string, string) -> bool, i: nat)
    requires i < |items| && matches(items[i].0, name)
    requires forall j :: 0 <= j < i ==> !matches(items[j].0, name)
    ensures FirstMatch(items, name, matches) == Some(items[i])
  {
    if i > 0 {
      FirstMatchIsFirst(items[1..], name, matches, i - 1);
    }
  }

  /** `customTemplate?.[1] || fallback`: an empty custom template counts as none. */
  function ChooseTemplate(items: seq<(string, string)>, name: string, matches: (string, string) -> bool,
                          fallback: string): (r: string)
    ensures r == fallback || exists it :: it in items && matches(it.0, name) && it.1 == r && r != ""
  {
    match FirstMatch(items, name, matches)
    case Some(it) => if it.1 != "" then it.1 else fallback
    case None => fallback
  }
}

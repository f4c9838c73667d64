/** Files written by the generators through `renderToFile(path, template,
    context, {overwrite})`: the rendered text replaces what is on disk only
    when the overwrite rule accepts the current content (`undefined` when the
    file does not exist). A call without a rule always writes. The renderer
    itself is not part of this model: callers pass the rendered text. */
module Output {
  import opened Wrappers
  import opened Text

  /** The overwrite rules the generators pass. */
  datatype Rule =
    | Always                      // no `overwrite` option
    | WhenBlank                   // `(c) => !c?.trim().length`
    | WhenBlankOrLacks(marker: string)  // `... || !c?.includes(marker)`
    | WhenEmptyText               // `(c) => c?.trim().length === 0`

  /** `trim()` leaves nothing. */
  predicate Blank(s: string) {
    Trim(s) == ""
  }

  /** Whether the rule lets the current content `c` be replaced. `undefined?.x` is
      `undefined`, which `!` turns into true and `=== 0` into false. */
  predicate Allows(rule: Rule, c: Option<string>) {
    match rule
    case Always => true
    case WhenBlank => c.None? || Blank(c.value)
    case WhenBlankOrLacks(marker) => c.None? || Blank(c.value) || !Contains(c.value, marker)
    case WhenEmptyText => c.Some? && Blank(c.value)
  }

  /** One `renderToFile` call: target path, rendered text, overwrite rule. */
  datatype Write = Write(path: string, text: string, rule: Rule)

  function Existing(m: map<string, string>, path: string): Option<string> {
    if path in m then Some(m[path]) else None
  }

  /** The files after one call. */
  function Step(m: map<string, string>, w: Write): map<string, string> {
    if Allows(w.rule, Existing(m, w.path)) then m[w.path := w.text] else m
  }

  /** The files after a sequence of calls, in order. */
  function Apply(m: map<string, string>, ws: seq<Write>): map<string, string>
    decreases |ws|
  {
    if |ws| == 0 then m else Step(Apply(m, ws[..|ws| - 1]), ws[|ws| - 1])
  }

  /** The paths a sequence of calls names. */
  predicate Targets(ws: seq<Write>, p: string) {
    exists i :: 0 <= i < |ws| && ws[i].path == p
  }

  class Files {
    var contents: map<string, string>

    constructor(contents: map<string, string>)
      ensures this.contents == contents
    {
      this.contents := contents;
    }

    /** `renderToFile` with the text already rendered. */
    method RenderToFile(w: Write)
      modifies this
      ensures contents == Step(old(contents), w)
    {
      var current: Option<string> := None;
      if w.path in contents {
        current := Some(contents[w.path]);
      }
      if Allows(w.rule, current) {
        contents := contents[w.path := w.text];
      }
    }
  }

  // ---------------------------------------------------------------------------
  // Properties

  /** What each rule accepts, in terms of the characters of the current content. */
  lemma RuleSpec(rule: Rule, s: string)
    ensures Blank(s) <==> forall i :: 0 <= i < |s| ==> IsSpace(s[i])
    ensures Allows(WhenBlank, None) && !Allows(WhenEmptyText, None)
    ensures Allows(WhenBlank, Some(s)) <==> Blank(s)
    ensures Allows(WhenEmptyText, Some(s)) <==> Blank(s)
    ensures rule.WhenBlankOrLacks? ==> (!Allows(rule, Some(s)) <==> !Blank(s) && Contains(s, rule.marker))
  {
    TrimEmpty(s);
  }

  lemma {:induction false} ApplyAppend(m: map<string, string>, a: seq<Write>, b: seq<Write>)
    ensures Apply(m, a + b) == Apply(Apply(m, a), b)
    decreases |b|
  {
    if |b| == 0 {
      assert a + b == a;
    } else {
      ApplyAppend(m, a, b[..|b| - 1]);
      assert (a + b)[..|a + b| - 1] == a + b[..|b| - 1];
    }
  }

  lemma ApplySnoc(m: map<string, string>, ws: seq<Write>, w: Write)
    ensures Apply(m, ws + [w]) == Step(Apply(m, ws), w)
  {
    assert (ws + [w])[..|ws|] == ws;
  }

  /** A path no call names keeps its content, or stays absent. */
  lemma {:induction false} ApplyUntouched(m: map<string, string>, ws: seq<Write>, p: string)
    requires !Targets(ws, p)
    ensures p in Apply(m, ws) <==> p in m
    ensures p in m ==> Apply(m, ws)[p] == m[p]
    decreases |ws|
  {
    if |ws| > 0 {
      ApplyUntouched(m, ws[..|ws| - 1], p);
      assert ws[|ws| - 1].path != p;
    }
  }

  /** A file survives every call whose rule refuses its current content: the
      generators' rules never clobber a file the user has written to. */
  lemma {:induction false} ApplyKeepsRefused(m: map<string, string>, ws: seq<Write>, p: string)
    requires p in m
    requires forall i :: 0 <= i < |ws| && ws[i].path == p ==> !Allows(ws[i].rule, Some(m[p]))
    ensures p in Apply(m, ws) && Apply(m, ws)[p] == m[p]
    decreases |ws|
  {
    if |ws| > 0 {
      ApplyKeepsRefused(m, ws[..|ws| - 1], p);
    }
  }

  /** A missing file stays missing when every call naming it refuses a missing file. */
  lemma {:induction false} ApplyKeepsAbsent(m: map<string, string>, ws: seq<Write>, p: string)
    requires p !in m
    requires forall i :: 0 <= i < |ws| && ws[i].path == p ==> !Allows(ws[i].rule, None)
    ensures p !in Apply(m, ws)
    decreases |ws|
  {
    if |ws| > 0 {
      ApplyKeepsAbsent(m, ws[..|ws| - 1], p);
    }
  }

  /** The last call naming a path with rule `Always` decides its content. */
  lemma {:induction false} ApplyLastAlways(m: map<string, string>, ws: seq<Write>, i: nat)
    requires i < |ws| && ws[i].rule == Always
    requires forall j :: i < j < |ws| ==> ws[j].path != ws[i].path
    ensures ws[i].path in Apply(m, ws) && Apply(m, ws)[ws[i].path] == ws[i].text
    decreases |ws|
  {
    if i < |ws| - 1 {
      ApplyLastAlways(m, ws[..|ws| - 1], i);
    }
  }
}

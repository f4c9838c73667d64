/** Project path resolution (packages/core/devlib/src/paths.ts): a directory
    key from the defaults table, `@` for the source folder, resolved under the
    source folder or the library folder and, when an application root is
    given, under that root. */
module Paths {
  import opened Wrappers
  import opened Text

  /** The `dir` argument: `@` or a key of the defaults table. */
  datatype Dir = SourceDir | Key(name: string)

  /** The non-empty parts of a path list. */
  function NonEmpty(parts: seq<string>): (r: seq<string>)
    ensures forall k :: 0 <= k < |r| ==> r[k] != ""
    ensures forall p :: p in r <==> p in parts && p != ""
  {
    if |parts| == 0 then []
    else if parts[0] == "" then NonEmpty(parts[1..])
    else [parts[0]] + NonEmpty(parts[1..])
  }

  /** `path.join(...parts)` on already-normalised parts: empty parts vanish and the
      rest are joined with `/`. */
  function JoinPath(parts: seq<string>): string {
    Join(NonEmpty(parts), "/")
  }

  /** Whether a key may be passed: `@` or a key of the table; a `...LibDir` key also
      needs the table's `libDir`. */
  predicate Known(defaults: map<string, string>, dir: Dir) {
    dir.Key? ==> dir.name in defaults && (EndsWith(dir.name, "LibDir") ==> "libDir" in defaults)
  }

  /** The directory a key names, before the application root and files are added. */
  function DirPath(sourceFolder: string, defaults: map<string, string>, dir: Dir): string
    requires Known(defaults, dir)
  {
    match dir
    case SourceDir => sourceFolder
    case Key(k) =>
      if k == "coreDir" || k == "libDir" then defaults[k]
      else if EndsWith(k, "LibDir") then JoinPath([defaults["libDir"], sourceFolder, defaults[k]])
      else JoinPath([sourceFolder, defaults[k]])
  }

  /** `pathResolver({appRoot, sourceFolder}).resolve(dir, ...file)`; an absent or empty
      application root is not prepended. */
  function Resolve(appRoot: Option<string>, sourceFolder: string, defaults: map<string, string>,
                   dir: Dir, file: seq<string>): string
    requires Known(defaults, dir)
  {
    var dirname := DirPath(sourceFolder, defaults, dir);
    if appRoot.Some? && appRoot.value != "" then JoinPath([appRoot.value, dirname] + file)
    else JoinPath([dirname] + file)
  }

  lemma NonEmptyAll(parts: seq<string>)
    requires forall k :: 0 <= k < |parts| ==> parts[k] != ""
    ensures NonEmpty(parts) == parts
  {
    if |parts| > 0 {
      NonEmptyAll(parts[1..]);
    }
  }

  /** A single part is kept exactly when it is non-empty; with `NonEmptyAppend`
      this makes `NonEmpty` the order-keeping filter of the non-empty parts. */
  lemma {:induction false} NonEmptySingle(p: string)
    ensures NonEmpty([p]) == if p == "" then [] else [p]
  {
    assert [p][1..] == [];
  }

  /** Each non-empty part is kept as often as it occurs, and no empty part is. */
  lemma {:induction false} NonEmptyCounts(parts: seq<string>)
    ensures multiset(NonEmpty(parts)) == multiset(parts)["" := 0]
  {
    if |parts| > 0 {
      NonEmptyCounts(parts[1..]);
      assert parts == [parts[0]] + parts[1..];
    }
  }

  lemma NonEmptyAppend(a: seq<string>, b: seq<string>)
    ensures NonEmpty(a + b) == NonEmpty(a) + NonEmpty(b)
  {
    if |a| > 0 {
      assert (a + b)[1..] == a[1..] + b;
      NonEmptyAppend(a[1..], b);
    } else {
      assert a + b == b;
    }
  }

  lemma JoinAppend(a: seq<string>, b: seq<string>, sep: string)
    requires |a| > 0 && |b| > 0
    ensures Join(a + b, sep) == Join(a, sep) + sep + Join(b, sep)
    decreases |a|
  {
    if |a| == 1 {
      assert (a + b)[1..] == b;
    } else {
      assert (a + b)[1..] == a[1..] + b;
      JoinAppend(a[1..], b, sep);
    }
  }

  /** With an application root the result is that root, `/`, and the result without
      it; without one (or with an empty one) it is the result without it. */
  lemma {:induction false} ResolveUnderRoot(appRoot: Option<string>, sourceFolder: string,
                                            defaults: map<string, string>, dir: Dir, file: seq<string>)
    requires Known(defaults, dir)
    requires JoinPath([DirPath(sourceFolder, defaults, dir)] + file) != ""
    ensures appRoot.Some? && appRoot.value != "" ==>
      Resolve(appRoot, sourceFolder, defaults, dir, file)
        == appRoot.value + "/" + Resolve(None, sourceFolder, defaults, dir, file)
    ensures !(appRoot.Some? && appRoot.value != "") ==>
      Resolve(appRoot, sourceFolder, defaults, dir, file) == Resolve(None, sourceFolder, defaults, dir, file)
  {
    if appRoot.Some? && appRoot.value != "" {
      var rest := [DirPath(sourceFolder, defaults, dir)] + file;
      assert [appRoot.value, DirPath(sourceFolder, defaults, dir)] + file == [appRoot.value] + rest;
      NonEmptyAppend([appRoot.value], rest);
      assert NonEmpty([appRoot.value]) == [appRoot.value] by {
        assert [appRoot.value][1..] == [];
      }
      JoinAppend([appRoot.value], NonEmpty(rest), "/");
    }
  }

  /** `@` is the source folder itself. */
  lemma SourceShortcut(sourceFolder: string, defaults: map<string, string>)
    ensures DirPath(sourceFolder, defaults, SourceDir) == sourceFolder
  {
  }

  /** `coreDir` and `libDir` do not depend on the source folder. */
  lemma CoreAndLibIgnoreSourceFolder(sf1: string, sf2: string, defaults: map<string, string>, k: string)
    requires k == "coreDir" || k == "libDir"
    requires k in defaults
    ensures DirPath(sf1, defaults, Key(k)) == DirPath(sf2, defaults, Key(k)) == defaults[k]
  {
  }

  /** A `...LibDir` key lies in the library folder, under the source folder's name;
      every other key lies in the source folder. */
  lemma {:induction false} LibAndSourceNesting(sourceFolder: string, defaults: map<string, string>, k: string)
    requires Known(defaults, Key(k)) && k != "coreDir" && k != "libDir"
    requires sourceFolder != "" && defaults[k] != ""
    requires "libDir" in defaults ==> defaults["libDir"] != ""
    ensures EndsWith(k, "LibDir") ==>
      DirPath(sourceFolder, defaults, Key(k)) == defaults["libDir"] + "/" + sourceFolder + "/" + defaults[k]
    ensures !EndsWith(k, "LibDir") ==>
      DirPath(sourceFolder, defaults, Key(k)) == sourceFolder + "/" + defaults[k]
  {
    if EndsWith(k, "LibDir") {
      var parts := [defaults["libDir"], sourceFolder, defaults[k]];
      NonEmptyAll(parts);
      assert parts[1..] == [sourceFolder, defaults[k]];
      assert parts[1..][1..] == [defaults[k]];
      assert Join(parts[1..], "/") == sourceFolder + "/" + defaults[k];
      assert JoinPath(parts) == defaults["libDir"] + "/" + (sourceFolder + "/" + defaults[k]);
    } else {
      var parts := [sourceFolder, defaults[k]];
      NonEmptyAll(parts);
      assert parts[1..] == [defaults[k]];
      assert Join(parts[1..], "/") == defaults[k];
      assert JoinPath(parts) == sourceFolder + "/" + defaults[k];
    }
  }
}

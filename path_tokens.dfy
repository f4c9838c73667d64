/** The path token parser (packages/core/devlib/src/routes.ts): a directory
    path such as `users/[id].json` becomes one token per `/`-separated
    segment. Each token keeps the raw segment, its trailing `.ext` split off,
    the segment as used in route names (a leading `index` becomes `/`), and,
    when the segment is a parameter, its name, an identifier-safe constant
    name and which of required, optional or rest it is. */
module PathTokens {
  import opened Wrappers
  import opened Text

  datatype Param = Param(
    name: string,
    constName: string,  // the source's `const`
    isRequired: bool,
    isOptional: bool,
    isRest: bool)
  {
    /** Exactly one of required, optional and rest holds. */
    predicate ExactlyOneFlag() {
      || (isRequired && !isOptional && !isRest)
      || (!isRequired && isOptional && !isRest)
      || (!isRequired && !isOptional && isRest)
    }
  }

  datatype PathToken = PathToken(
    orig: string,
    base: string,
    path: string,
    ext: string,
    param: Option<Param>)

  // ---------------------------------------------------------------------------
  // Extension split: `orig.split(/(\.([\w\d-]+)$)/)`

  /** The character class `[\w\d-]` of an extension. */
  predicate IsExtChar(c: char) {
    IsWordChar(c) || c == '-'
  }

  /** The regular expression `\.([\w\d-]+)$` matches `s` at position `i`. */
  predicate ExtAt(s: string, i: int) {
    0 <= i < |s| - 1 && s[i] == '.' && forall j :: i < j < |s| ==> IsExtChar(s[j])
  }

  /** The leftmost match position at or after `from`, as the regular-expression engine finds it. */
  function FindExt(s: string, from: nat): (r: Option<nat>)
    requires from <= |s|
    ensures r.Some? ==> from <= r.value && ExtAt(s, r.value)
    ensures r.Some? ==> forall j :: from <= j < r.value ==> !ExtAt(s, j)
    ensures r.None? ==> forall j :: from <= j ==> !ExtAt(s, j)
    decreases |s| - from
  {
    if from == |s| then None
    else if ExtAt(s, from) then Some(from)
    else FindExt(s, from + 1)
  }

  /** Splits a segment into its base and its extension (empty when there is none). */
  function SplitExt(orig: string): (r: (string, string)) {
    match FindExt(orig, 0)
    case None => (orig, "")
    case Some(i) => (orig[..i], orig[i..])
  }

  /** `base ++ ext == orig`, and `ext` is empty or a dot followed by one or more
      extension characters running to the end of the segment; it is empty only
      when no such suffix exists. */
  lemma SplitExtShape(orig: string)
    ensures SplitExt(orig).0 + SplitExt(orig).1 == orig
    ensures var ext := SplitExt(orig).1;
      ext == "" || (|ext| >= 2 && ext[0] == '.' && forall j :: 1 <= j < |ext| ==> IsExtChar(ext[j]))
    ensures SplitExt(orig).1 == "" <==> forall j :: !ExtAt(orig, j)
  {
    match FindExt(orig, 0)
    case None =>
    case Some(i) =>
      assert orig[..i] + orig[i..] == orig;
      var ext := orig[i..];
      assert forall j :: 1 <= j < |ext| ==> ext[j] == orig[i + j];
  }

  /** Only the last dot of a segment can start an extension. */
  lemma {:induction false} ExtAtUnique(s: string, i: int, k: int)
    requires ExtAt(s, i) && ExtAt(s, k)
    ensures i == k
  {
  }

  // ---------------------------------------------------------------------------
  // Parameter forms, tested on the base in the order rest, optional, required.

  /** No `]` in `s`: the class `[^\]]`. */
  predicate NoClose(s: string) {
    forall j :: 0 <= j < |s| ==> s[j] != ']'
  }

  /** `^\[\.\.\.([^\]]+)\]$` */
  predicate IsRestForm(b: string) {
    |b| >= 6 && b[..4] == "[..." && b[|b| - 1] == ']' && NoClose(b[4..|b| - 1])
  }

  /** `^\[\[([^\]]+)\]\]$` */
  predicate IsOptionalForm(b: string) {
    |b| >= 5 && b[..2] == "[[" && b[|b| - 2..] == "]]" && NoClose(b[2..|b| - 2])
  }

  /** `^\[([^\]]+)\]$` */
  predicate IsRequiredForm(b: string) {
    |b| >= 3 && b[0] == '[' && b[|b| - 1] == ']' && NoClose(b[1..|b| - 1])
  }

  /** `name.replace(/\W/g, "_")` */
  function Underscored(name: string): (r: string)
    ensures |r| == |name|
    ensures AllWord(r)
    ensures forall j :: 0 <= j < |name| ==> r[j] == (if IsWordChar(name[j]) then name[j] else '_')
  {
    seq(|name|, j requires 0 <= j < |name| => if IsWordChar(name[j]) then name[j] else '_')
  }

  /** The identifier-safe name of a parameter (routes.ts `paramBase`). */
  function ConstName(name: string, orig: string): string {
    if HasNonWord(name) then Join([Underscored(name), NatToString(Crc32(orig))], "_")
    else name
  }

  /** `const` equals `name` when `name` is all word characters, and otherwise is the
      underscored name, `_` and the checksum of the raw segment; either way it is made
      of word characters only. */
  lemma ConstNameShape(name: string, orig: string)
    ensures !HasNonWord(name) ==> ConstName(name, orig) == name
    ensures HasNonWord(name) ==>
      ConstName(name, orig) == Underscored(name) + "_" + NatToString(Crc32(orig))
    ensures AllWord(ConstName(name, orig))
  {
    var digits := NatToString(Crc32(orig));
    if HasNonWord(name) {
      var r := Underscored(name) + "_" + digits;
      var parts := [Underscored(name), digits];
      assert parts[1..] == [digits];
      assert Join(parts[1..], "_") == digits;
      assert Join(parts, "_") == r;
      forall j | 0 <= j < |r| ensures IsWordChar(r[j]) {
        if j < |name| {
          assert r[j] == Underscored(name)[j];
        } else if j > |name| {
          assert r[j] == digits[j - |name| - 1];
          assert IsDigit(digits[j - |name| - 1]);
        }
      }
    }
  }

  function MakeParam(name: string, orig: string, isRequired: bool, isOptional: bool, isRest: bool): Param {
    Param(name, ConstName(name, orig), isRequired, isOptional, isRest)
  }

  /** The parameter a base denotes, if any. */
  function Classify(base: string, orig: string): Option<Param> {
    if |base| > 0 && base[0] == '[' then
      if IsRestForm(base) then Some(MakeParam(base[4..|base| - 1], orig, false, false, true))
      else if IsOptionalForm(base) then Some(MakeParam(base[2..|base| - 2], orig, false, true, false))
      else if IsRequiredForm(base) then Some(MakeParam(base[1..|base| - 1], orig, true, false, false))
      else None
    else None
  }

  /** The token for the raw segment `orig` at position `i`. */
  function MakeToken(orig: string, i: nat): PathToken {
    var (base, ext) := SplitExt(orig);
    PathToken(orig, base, if i == 0 && orig == "index" then "/" else orig, ext, Classify(base, orig))
  }

  /** `pathTokensFactory(path)`. */
  function Tokens(path: string): (r: seq<PathToken>) {
    var segs := Split(path, '/');
    seq(|segs|, i requires 0 <= i < |segs| => MakeToken(segs[i], i))
  }

  // ---------------------------------------------------------------------------
  // Properties

  /** One token per `/`-separated segment, in order, each keeping its raw segment;
      joining the raw segments with `/` gives back the path. */
  lemma TokensFollowSegments(path: string)
    ensures |Tokens(path)| == |Split(path, '/')|
    ensures forall i :: 0 <= i < |Tokens(path)| ==> Tokens(path)[i].orig == Split(path, '/')[i]
    ensures Join(Origs(Tokens(path)), "/") == path
  {
    var ts := Tokens(path);
    assert Origs(ts) == Split(path, '/');
    JoinSplit(path, '/');
  }

  /** The raw segments of a token list. */
  function Origs(ts: seq<PathToken>): (r: seq<string>)
    ensures |r| == |ts|
    ensures forall i :: 0 <= i < |ts| ==> r[i] == ts[i].orig
  {
    seq(|ts|, i requires 0 <= i < |ts| => ts[i].orig)
  }

  /** A token's base and extension concatenate to its raw segment, and its extension
      is empty or a final dot with extension characters. */
  lemma TokenExtension(orig: string, i: nat)
    ensures MakeToken(orig, i).base + MakeToken(orig, i).ext == orig
    ensures var ext := MakeToken(orig, i).ext;
      ext == "" || (|ext| >= 2 && ext[0] == '.' && forall j :: 1 <= j < |ext| ==> IsExtChar(ext[j]))
  {
    SplitExtShape(orig);
  }

  /** Classification looks at the base only, only when it starts with `[`, and takes
      the first of rest, optional and required that matches; a base matching none
      (such as `[]`) is static. Exactly one flag is set on a parameter. */
  lemma ClassifyOrder(base: string, orig: string)
    ensures var p := Classify(base, orig);
      && (p.Some? <==> IsRestForm(base) || IsOptionalForm(base) || IsRequiredForm(base))
      && (p.Some? ==> (p.value.isRest <==> IsRestForm(base)))
      && (p.Some? ==> (p.value.isOptional <==> !IsRestForm(base) && IsOptionalForm(base)))
      && (p.Some? ==> (p.value.isRequired <==> !IsRestForm(base) && !IsOptionalForm(base)))
      && (p.Some? ==> p.value.ExactlyOneFlag())
  {
  }

  /** Why the order matters: every rest form also matches the required pattern,
      yet the parser reports it as rest. */
  lemma RestShadowsRequired(base: string, orig: string)
    requires IsRestForm(base)
    ensures IsRequiredForm(base)
    ensures Classify(base, orig).Some? && Classify(base, orig).value.isRest
    ensures Classify(base, orig).value.name == base[4..|base| - 1]
  {
    assert base[1..|base| - 1][3..] == base[4..|base| - 1];
  }

  /** The `[]` segment is not a parameter. */
  lemma EmptyBracketsStatic(orig: string)
    ensures Classify("[]", orig).None?
  {
  }

  /** A token's route-name `path` is `/` exactly for a first segment `index`;
      otherwise it is the raw segment. */
  lemma TokenPath(orig: string, i: nat)
    requires '/' !in orig
    ensures MakeToken(orig, i).path == "/" <==> i == 0 && orig == "index"
    ensures !(i == 0 && orig == "index") ==> MakeToken(orig, i).path == orig
  {
  }

  /** A token names a parameter only when its raw segment starts with `[`. */
  lemma ParamStartsWithBracket(orig: string, i: nat)
    requires MakeToken(orig, i).param.Some?
    ensures |orig| > 0 && orig[0] == '['
  {
    SplitExtShape(orig);
    var base := SplitExt(orig).0;
    assert orig == base + SplitExt(orig).1;
    assert orig[0] == base[0];
  }

  /** `[id].json` is a required `id` with extension `.json`. */
  lemma RequiredWithExtension()
    ensures MakeToken("[id].json", 1) == PathToken("[id].json", "[id]", "[id].json", ".json",
      Some(Param("id", "id", true, false, false)))
  {
    var s := "[id].json";
    assert ExtAt(s, 4);
    forall j | 0 <= j < 4 ensures !ExtAt(s, j) {
      assert s[j] != '.';
    }
    FindExtFrom(s, 0, 4);
    assert s[..4] == "[id]";
    assert s[4..] == ".json";
    assert !IsRestForm("[id]");
    assert !IsOptionalForm("[id]");
    assert IsRequiredForm("[id]");
    assert "[id]"[1..3] == "id";
    assert !HasNonWord("id");
    assert ConstName("id", s) == "id";
  }

  /** `[[id]].json` is an optional `id` with extension `.json`. */
  lemma OptionalWithExtension()
    ensures MakeToken("[[id]].json", 1) == PathToken("[[id]].json", "[[id]]", "[[id]].json", ".json",
      Some(Param("id", "id", false, true, false)))
  {
    var s := "[[id]].json";
    assert ExtAt(s, 6);
    forall j | 0 <= j < 6 ensures !ExtAt(s, j) {
      assert s[j] != '.';
    }
    FindExtFrom(s, 0, 6);
    assert s[..6] == "[[id]]";
    assert s[6..] == ".json";
    assert !IsRestForm("[[id]]");
    assert IsOptionalForm("[[id]]");
    assert "[[id]]"[2..4] == "id";
    assert !HasNonWord("id");
    assert ConstName("id", s) == "id";
  }

  /** A parameter's name is taken from inside its raw segment: every character of
      the name occurs in the segment. */
  lemma ParamNameWithin(orig: string, i: nat)
    requires MakeToken(orig, i).param.Some?
    ensures forall c :: c in MakeToken(orig, i).param.value.name ==> c in orig
  {
    SplitExtShape(orig);
    var base := SplitExt(orig).0;
    assert orig == base + SplitExt(orig).1;
    var name := MakeToken(orig, i).param.value.name;
    forall c | c in name ensures c in orig {
      var k :| 0 <= k < |name| && name[k] == c;
      if IsRestForm(base) {
        assert name == base[4..|base| - 1];
        assert c == orig[k + 4];
      } else if IsOptionalForm(base) {
        assert name == base[2..|base| - 2];
        assert c == orig[k + 2];
      } else {
        assert name == base[1..|base| - 1];
        assert c == orig[k + 1];
      }
    }
  }

  /** A segment without a dot has no extension. */
  lemma NoDotNoExtension(orig: string)
    requires '.' !in orig
    ensures SplitExt(orig) == (orig, "")
  {
    SplitExtShape(orig);
    assert forall j :: !ExtAt(orig, j) by {
      forall j | 0 <= j < |orig| ensures orig[j] != '.' {
        assert orig[j] in orig;
      }
    }
    assert SplitExt(orig).0 + "" == orig;
  }

  /** The scan finds the first matching position. */
  lemma FindExtFrom(s: string, from: nat, i: nat)
    requires from <= i < |s| && ExtAt(s, i)
    requires forall j :: from <= j < i ==> !ExtAt(s, j)
    ensures FindExt(s, from) == Some(i)
  {
    match FindExt(s, from)
    case None =>
    case Some(k) =>
      ExtAtUnique(s, i, k);
  }
}

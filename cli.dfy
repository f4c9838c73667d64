/** The command-line validators and the copy filter (packages/core/dev/src/cli/base.ts).
    A validator returns an error message, or nothing when the input is acceptable;
    `assertNoError` turns a message into a thrown error. */
module Cli {
  import opened Wrappers
  import opened Text

  // ---------------------------------------------------------------------------
  // `validateName`

  const InvalidName := "Invalid name provided"
  const BadNameChars := "May contain only alphanumerics, hyphens, periods or any of @ $ +"

  /** The characters of `[\w.@$+-]`. */
  predicate NameChar(c: char) {
    IsWordChar(c) || c == '.' || c == '@' || c == '$' || c == '+' || c == '-'
  }

  function ValidateName(name: Option<string>): (r: Option<string>)
    ensures r.None? <==> name.Some? && name.value != "" && forall i :: 0 <= i < |name.value| ==> NameChar(name.value[i])
    ensures r.Some? ==> r.value == (if name.None? || name.value == "" then InvalidName else BadNameChars)
  {
    if name.None? || name.value == "" then Some(InvalidName)
    else if exists i :: 0 <= i < |name.value| && !NameChar(name.value[i]) then Some(BadNameChars)
    else None
  }

  /** An accepted name is a single path segment with no white space. */
  lemma NameIsOneSegment(name: string)
    requires ValidateName(Some(name)).None?
    ensures '/' !in name && '\\' !in name
    ensures forall i :: 0 <= i < |name| ==> !IsSpace(name[i])
    ensures Split(name, '/') == [name]
  {
    forall i | 0 <= i < |name| ensures name[i] != '/' && name[i] != '\\' && !IsSpace(name[i]) {
      NameCharFacts(name[i]);
    }
    SplitNoSep(name, '/');
  }

  lemma NameCharFacts(c: char)
    requires NameChar(c)
    ensures c != '/' && c != '\\' && !IsSpace(c)
  {
  }

  /** The rule lets `.` and `..` through. */
  lemma DotNamesPass()
    ensures ValidateName(Some(".")).None? && ValidateName(Some("..")).None?
  {
  }

  // ---------------------------------------------------------------------------
  // `validateBase`

  const NoLeadingSlash := "Should start with a slash"
  const Traversal := "Should not contain path traversal patterns"

  function ValidateBase(base: Option<string>): (r: Option<string>)
    ensures r == Some(NoLeadingSlash) <==> base.None? || !StartsWith(base.value, "/")
    ensures r == Some(Traversal) <==>
      && base.Some? && StartsWith(base.value, "/")
      && exists j :: OccursAt(Trim(base.value), "../", j) || OccursAt(Trim(base.value), "/./", j)
    ensures r.None? <==>
      && base.Some? && StartsWith(base.value, "/")
      && forall j :: !OccursAt(Trim(base.value), "../", j) && !OccursAt(Trim(base.value), "/./", j)
  {
    if base.None? || !StartsWith(base.value, "/") then Some(NoLeadingSlash)
    else if Contains(Trim(base.value), "../") || Contains(Trim(base.value), "/./") then Some(Traversal)
    else None
  }

  /** In an accepted base, no segment of the trimmed text but the last is `..`, and
      no segment between two slashes is `.`. */
  lemma BaseAcceptedSegments(base: string)
    requires ValidateBase(Some(base)).None?
    ensures var segs := Split(Trim(base), '/');
            forall k :: 0 <= k < |segs| - 1 ==> segs[k] != ".." && (k > 0 ==> segs[k] != ".")
  {
    var s := Trim(base);
    JoinSplit(s, '/');
    NoTraversalSegments(s, Split(s, '/'));
  }

  /** The test is on the text, not on segments: `/a../b` is refused although none
      of its segments is `..` (`DotsWithinSegment`). */
  lemma TraversalInsideSegment(b: string)
    requires b == "/a../b"
    ensures ValidateBase(Some(b)) == Some(Traversal)
  {
    TrimKeeps(b);
    assert b[2..5] == "../";
    TraversalRejected(b, 2);
  }

  /** A base with a leading slash whose trimmed text holds `../` is refused as a traversal. */
  lemma TraversalRejected(base: string, j: int)
    requires StartsWith(base, "/") && OccursAt(Trim(base), "../", j)
    ensures ValidateBase(Some(base)) == Some(Traversal)
  {
  }

  lemma {:induction false} DotsWithinSegment(b: string)
    requires b == "/a../b"
    ensures Split(b, '/') == ["", "a..", "b"]
  {
    var parts := ["", "a..", "b"];
    assert parts[1..] == ["a..", "b"] && parts[1..][1..] == ["b"];
    assert Join(parts, "/") == b;
    SplitJoin(parts, '/');
  }

  lemma NoTraversalSegments(s: string, segs: seq<string>)
    requires Join(segs, "/") == s
    requires forall j :: !OccursAt(s, "../", j) && !OccursAt(s, "/./", j)
    ensures forall k :: 0 <= k < |segs| - 1 ==> segs[k] != ".." && (k > 0 ==> segs[k] != ".")
  {
    forall k | 0 <= k < |segs| - 1 ensures segs[k] != ".." && (k > 0 ==> segs[k] != ".") {
      if segs[k] == ".." {
        var j := ParentOccurs(segs, k);
      }
      if k > 0 && segs[k] == "." {
        var j := DotOccurs(segs, k);
      }
    }
  }

  lemma ParentOccurs(segs: seq<string>, k: nat) returns (j: nat)
    requires k < |segs| - 1 && segs[k] == ".."
    ensures OccursAt(Join(segs, "/"), "../", j)
  {
    j := SegmentFollowedBySlash(segs, k);
    assert segs[k] + "/" == "../";
  }

  lemma DotOccurs(segs: seq<string>, k: nat) returns (j: nat)
    requires 0 < k < |segs| - 1 && segs[k] == "."
    ensures OccursAt(Join(segs, "/"), "/./", j)
  {
    var s := Join(segs, "/");
    var i := SegmentFollowedBySlash(segs, k);
    assert s[i..i + 2] == "./";
    j := i - 1;
    assert s[j..j + 3] == [s[j]] + s[i..i + 2];
  }

  /** A part other than the last is followed by `/` in the join, and preceded by `/`
      when it is not the first. */
  lemma SegmentFollowedBySlash(parts: seq<string>, k: nat) returns (j: nat)
    requires k < |parts| - 1
    ensures OccursAt(Join(parts, "/"), parts[k] + "/", j)
    ensures k > 0 ==> j > 0 && Join(parts, "/")[j - 1] == '/'
  {
    var x := Join(parts[..k + 1], "/");
    var y := Join(parts[k + 1..], "/");
    var s := Join(parts, "/");
    JoinAround(parts, k);
    JoinEndsWith(parts[..k + 1]);
    var w := parts[k];
    j := |x| - |w|;
    assert s == x + "/" + y;
    assert s[j..j + |w| + 1] == x[j..] + "/";
    if k > 0 {
      assert s[j - 1] == x[j - 1];
    }
  }

  /** `parts` split around the separator after part `k`. */
  lemma JoinAround(parts: seq<string>, k: nat)
    requires k < |parts| - 1
    ensures Join(parts, "/") == Join(parts[..k + 1], "/") + "/" + Join(parts[k + 1..], "/")
  {
    assert parts == parts[..k + 1] + parts[k + 1..];
    JoinConcat(parts[..k + 1], parts[k + 1..]);
  }

  lemma {:induction false} JoinConcat(a: seq<string>, b: seq<string>)
    requires |a| > 0 && |b| > 0
    ensures Join(a + b, "/") == Join(a, "/") + "/" + Join(b, "/")
    decreases |a|
  {
    if |a| > 1 {
      assert (a + b)[1..] == a[1..] + b;
      JoinConcat(a[1..], b);
    } else {
      assert (a + b)[1..] == b;
    }
  }

  /** A join ends with its last part, after a `/` when there is more than one. */
  lemma JoinEndsWith(parts: seq<string>)
    requires |parts| > 0
    ensures var j := Join(parts, "/");
            var last := parts[|parts| - 1];
            && |j| >= |last|
            && j[|j| - |last|..] == last
            && (|parts| > 1 ==> |j| > |last| && j[|j| - |last| - 1] == '/')
  {
    if |parts| > 1 {
      var init := parts[..|parts| - 1];
      assert parts == init + [parts[|parts| - 1]];
      JoinConcat(init, [parts[|parts| - 1]]);
    }
  }

  /** A trailing `/..` is not caught: the patterns need a slash after the dots. */
  lemma TrailingParentPasses(s: string)
    requires s == "/a/.."
    ensures ValidateBase(Some(s)).None?
  {
    TrimKeeps(s);
    assert s[0..3] == "/a/" && s[1..4] == "a/." && s[2..5] == "/..";
    NotContained(s, "../");
    NotContained(s, "/./");
    assert s[..1] == "/";
  }

  lemma NotContained(s: string, pat: string)
    requires forall j :: !OccursAt(s, pat, j)
    ensures !Contains(s, pat)
  {
  }

  /** Trimming changes nothing when both ends are not white space. */
  lemma TrimKeeps(s: string)
    requires |s| > 0 ==> !IsSpace(s[0]) && !IsSpace(s[|s| - 1])
    ensures Trim(s) == s
  {
  }

  // ---------------------------------------------------------------------------
  // `validatePort`

  const InvalidPort := "Invalid port number"

  /** The `port` argument: a number (an integer value, `NaN` or an infinity), a
      string, or `undefined`. */
  datatype Port = PortNum(n: int) | PortNaN | PortInfinity(negative: bool) | PortText(s: string) | NoPort

  /** `!port`: `undefined`, `0`, `NaN` and `""`. */
  predicate Falsy(p: Port) {
    p == NoPort || p == PortNum(0) || p == PortNaN || p == PortText("")
  }

  /** Numbers whose magnitude is below this bound print in plain decimal. */
  const PlainLimit: nat := 1_000_000_000_000_000_000_000

  /** A decimal text without its trailing zeros. */
  function DropZeros(s: string): (r: string)
    ensures |r| <= |s| && r == s[..|r|]
    decreases |s|
  {
    if |s| > 0 && s[|s| - 1] == '0' then DropZeros(s[..|s| - 1]) else s
  }

  /** The significant digits of `m`, with a point after the first when there are more. */
  function Mantissa(m: nat): (r: string)
    ensures forall i :: 0 <= i < |r| ==> IsDigit(r[i]) || r[i] == '.'
  {
    var d := DropZeros(NatToString(m));
    if |d| <= 1 then d else d[..1] + "." + d[1..]
  }

  /** `String(n)` for a number with an integer value: plain decimal below 10^21 in
      magnitude, exponent form `d.ddde+x` from there on. */
  function NumberString(n: int): string {
    if -(PlainLimit as int) < n < PlainLimit then IntToString(n)
    else
      var m: nat := if n < 0 then -n else n;
      (if n < 0 then "-" else "") + Mantissa(m) + "e+" + NatToString(|NatToString(m)| - 1)
  }

  /** `String(port)`. */
  function PortString(p: Port): string {
    match p
    case PortNum(n) => NumberString(n)
    case PortNaN => "NaN"
    case PortInfinity(negative) => if negative then "-Infinity" else "Infinity"
    case PortText(s) => s
    case NoPort => "undefined"
  }

  predicate AllDigits(s: string) {
    forall i :: 0 <= i < |s| ==> IsDigit(s[i])
  }

  /** `validatePort` as written: a falsy port, or a trimmed text with a character
      other than a digit, is rejected. */
  function ValidatePort(p: Port): Option<string> {
    if Falsy(p) || !AllDigits(Trim(PortString(p))) then Some(InvalidPort) else None
  }

  /** A numeric port passes exactly when it is positive and below 10^21: from there
      on `String` prints an exponent, whose `e` is not a digit. */
  lemma PortNumber(n: int)
    ensures ValidatePort(PortNum(n)).None? <==> 0 < n < PlainLimit
  {
    var s := NumberString(n);
    if n <= -(PlainLimit as int) || PlainLimit <= n {
      ExponentRefused(n);
    } else if n > 0 {
      TrimKeeps(s);
    } else if n < 0 {
      var d := NatToString(-n);
      assert s == "-" + d;
      assert s[|s| - 1] == d[|d| - 1];
      TrimKeeps(s);
      assert !IsDigit(Trim(s)[0]);
    }
  }

  /** The exponent text of a number of 10^21 or more in magnitude is refused: it
      has no white space to trim, and its `e` is not a digit. */
  lemma ExponentRefused(n: int)
    requires n <= -(PlainLimit as int) || PlainLimit <= n
    ensures Trim(PortString(PortNum(n))) != "" && !AllDigits(Trim(PortString(PortNum(n))))
    ensures ValidatePort(PortNum(n)) == Some(InvalidPort)
  {
    var m: nat := if n < 0 then -n else n;
    var sign := if n < 0 then "-" else "";
    var mant := Mantissa(m);
    var ex := NatToString(|NatToString(m)| - 1);
    assert PortString(PortNum(n)) == NumberString(n) == sign + mant + "e+" + ex;
    ExponentText(sign, mant, ex);
  }

  lemma ExponentText(sign: string, mant: string, ex: string)
    requires sign == "" || sign == "-"
    requires forall i :: 0 <= i < |mant| ==> IsDigit(mant[i]) || mant[i] == '.'
    requires |ex| >= 1 && forall i :: 0 <= i < |ex| ==> IsDigit(ex[i])
    ensures var s := sign + mant + "e+" + ex; Trim(s) == s && !AllDigits(s)
  {
    var s := sign + mant + "e+" + ex;
    assert s[|sign| + |mant|] == 'e';
    assert !IsSpace(s[0]) by {
      if |sign| > 0 { assert s[0] == '-'; }
      else if |mant| > 0 { assert s[0] == mant[0]; }
      else { assert s[0] == 'e'; }
    }
    assert s[|s| - 1] == ex[|ex| - 1];
    TrimKeeps(s);
    assert !IsDigit(s[|sign| + |mant|]);
  }

  /** `NaN` is falsy and an infinity prints as `Infinity`: both are refused. */
  lemma NonFinitePortsRefused(negative: bool)
    ensures ValidatePort(PortNaN) == Some(InvalidPort)
    ensures ValidatePort(PortInfinity(negative)) == Some(InvalidPort)
  {
    var s := PortString(PortInfinity(negative));
    assert !IsSpace(s[0]) && s[|s| - 1] == 'y';
    TrimKeeps(s);
    assert !IsDigit(s[|s| - 1]);
  }

  /** A port text of white space only passes: it is truthy, and once trimmed it has
      no character that is not a digit. */
  lemma BlankPortPasses()
    ensures ValidatePort(PortText("  ")).None?
  {
    TrimEmpty("  ");
  }

  /** `validatePort` as evidently intended: the trimmed text must also be non-empty. */
  function ValidatePortStrict(p: Port): Option<string> {
    if Falsy(p) || Trim(PortString(p)) == "" || !AllDigits(Trim(PortString(p))) then Some(InvalidPort) else None
  }

  /** An accepted port is, once trimmed, a non-empty run of digits. */
  lemma PortStrictAccepts(p: Port)
    requires ValidatePortStrict(p).None?
    ensures |Trim(PortString(p))| > 0 && AllDigits(Trim(PortString(p)))
  {
  }

  /** The strict rule differs from the written one exactly on non-empty texts of
      white space. */
  lemma PortStrictDiffers(p: Port)
    ensures ValidatePortStrict(p) != ValidatePort(p) <==>
      p.PortText? && p.s != "" && forall i :: 0 <= i < |p.s| ==> IsSpace(p.s[i])
  {
    assert ValidatePortStrict(p) != ValidatePort(p) <==> !Falsy(p) && Trim(PortString(p)) == "";
    BlankTruthyPort(p);
  }

  lemma BlankTruthyPort(p: Port)
    ensures !Falsy(p) && Trim(PortString(p)) == "" <==>
      p.PortText? && p.s != "" && forall i :: 0 <= i < |p.s| ==> IsSpace(p.s[i])
  {
    match p
    case PortNum(n) =>
      if n != 0 {
        if n <= -(PlainLimit as int) || PlainLimit <= n {
          ExponentRefused(n);
        } else {
          var s := IntToString(n);
          TrimEmpty(s);
          assert !IsSpace(s[0]) by {
            if n < 0 { assert s[0] == '-'; } else { assert IsDigit(s[0]); }
          }
        }
      }
    case PortNaN =>
    case PortInfinity(negative) =>
      NonFinitePortsRefused(negative);
      TrimEmpty(PortString(p));
    case NoPort =>
    case PortText(t) =>
      TrimEmpty(t);
  }

  // ---------------------------------------------------------------------------
  // `assertNoError`

  /** The message of the thrown error, without the terminal colouring. */
  function ErrorMessage(e: string): string {
    "✗ ERROR: " + e
  }

  /** `assertNoError(validator)` given the validator's result. */
  function AssertNoError(error: Option<string>): (r: Result<()>)
    ensures r.Failure? <==> error.Some? && error.value != ""
    ensures r.Failure? ==> EndsWith(r.error, error.value) && StartsWith(r.error, "✗ ERROR: ")
  {
    if error.Some? && error.value != "" then Failure(ErrorMessage(error.value)) else Success(())
  }

  /** Every validator message makes `assertNoError` throw, and acceptance lets it
      pass. */
  lemma ValidatorsThrow(name: Option<string>, base: Option<string>, p: Port)
    ensures AssertNoError(ValidateName(name)).Failure? <==> ValidateName(name).Some?
    ensures AssertNoError(ValidateBase(base)).Failure? <==> ValidateBase(base).Some?
    ensures AssertNoError(ValidatePort(p)).Failure? <==> ValidatePort(p).Some?
  {
  }

  // ---------------------------------------------------------------------------
  // The `copyFiles` filter

  /** An `exclude` item: a file name, or a regular expression given by its `test`. */
  datatype Exclude = ExcludeName(name: string) | ExcludePattern(test: string -> bool)

  /** `basename(path)` on a path without a trailing slash. */
  function Basename(path: string): string {
    var parts := Split(path, '/');
    parts[|parts| - 1]
  }

  predicate Matches(e: Exclude, path: string) {
    match e
    case ExcludeName(n) => n == Basename(path)
    case ExcludePattern(test) => test(path)
  }

  /** `exclude.some(...)`. */
  function Excluded(exclude: seq<Exclude>, path: string): (r: bool)
    ensures r <==> exists k :: 0 <= k < |exclude| && Matches(exclude[k], path)
    decreases |exclude|
  {
    if |exclude| == 0 then false
    else if Matches(exclude[0], path) then true
    else
      var r := Excluded(exclude[1..], path);
      assert r <==> exists k :: 1 <= k < |exclude| && Matches(exclude[k], path) by {
        if r {
          var k :| 0 <= k < |exclude[1..]| && Matches(exclude[1..][k], path);
          assert exclude[k + 1] == exclude[1..][k];
        }
        if exists k :: 1 <= k < |exclude| && Matches(exclude[k], path) {
          var k :| 1 <= k < |exclude| && Matches(exclude[k], path);
          assert exclude[1..][k - 1] == exclude[k];
        }
      }
      r
  }

  /** Whether `cp` copies `path`: with no excludes there is no filter, otherwise the
      path is copied when no exclude matches it. */
  function Copied(exclude: seq<Exclude>, path: string): bool {
    if |exclude| == 0 then true else !Excluded(exclude, path)
  }

  /** A path is copied iff no exclude matches it; an empty list copies everything. */
  lemma CopiedSpec(exclude: seq<Exclude>, path: string)
    ensures Copied(exclude, path) <==> forall k :: 0 <= k < |exclude| ==> !Matches(exclude[k], path)
  {
  }

  /** A name exclude removes exactly the paths whose last segment is that name, at any
      depth. */
  lemma ExcludeNameByBasename(dirs: seq<string>, last: string, n: string)
    requires forall k :: 0 <= k < |dirs| ==> '/' !in dirs[k]
    requires '/' !in last
    ensures Copied([ExcludeName(n)], Join(dirs + [last], "/")) <==> last != n
  {
    var parts := dirs + [last];
    assert forall k :: 0 <= k < |parts| ==> '/' !in parts[k] by {
      forall k | 0 <= k < |parts| ensures '/' !in parts[k] {
        if k < |dirs| { assert parts[k] == dirs[k]; }
      }
    }
    SplitJoin(parts, '/');
    assert Basename(Join(parts, "/")) == last;
  }
}

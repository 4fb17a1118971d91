/**
 * The validator: project-name errors from the npm package-name library, the
 * emptiness test for a directory, and the e-mail pattern. The package-name
 * library is not part of this model; what it reports for a name is a
 * parameter.
 */
module Validator {
  import opened Results
  import opened FileSystem
  import Scaffold

  /** What the package-name library reports for a name; absent lists are `None`. */
  datatype PackageNameCheck = PackageNameCheck(
    validForNewPackages: bool,
    errors: Option<seq<string>>,
    warnings: Option<seq<string>>)

  /** isValidProjectName: the library's verdict for new packages. */
  predicate IsValidProjectName(name: string, validatePackageName: string -> PackageNameCheck) {
    validatePackageName(name).validForNewPackages
  }

  /** The errors getProjectNameErrors reports for `name`. */
  function ProjectNameErrors(name: string, validatePackageName: string -> PackageNameCheck): seq<string> {
    var v := validatePackageName(name);
    v.errors.GetOr([]) + v.warnings.GetOr([])
  }

  /**
   * getProjectNameErrors: the library's errors, then its warnings, each in
   * the library's order; an absent list adds nothing.
   */
  method GetProjectNameErrors(name: string, validatePackageName: string -> PackageNameCheck) returns (errors: seq<string>)
    ensures errors == ProjectNameErrors(name, validatePackageName)
    ensures var v := validatePackageName(name);
      && |errors| == |v.errors.GetOr([])| + |v.warnings.GetOr([])|
      && errors[..|v.errors.GetOr([])|] == v.errors.GetOr([])
      && errors[|v.errors.GetOr([])|..] == v.warnings.GetOr([])
  {
    var validation := validatePackageName(name);
    errors := [];
    if validation.errors.Some? {
      errors := errors + validation.errors.value;
    }
    if validation.warnings.Some? {
      errors := errors + validation.warnings.value;
    }
  }

  /**
   * isEmptyDirectory: a missing path counts as empty; otherwise the path is
   * read as a directory, and reading a file throws.
   */
  function IsEmptyDirectory(fs: Fs, dirPath: Path): Result<bool> {
    if dirPath !in fs.nodes then Ok(true)
    else
      match ReadDir(fs, dirPath)
      case Err(e) => Err(e)
      case Ok(files) => Ok(|files| == 0)
  }

  /**
   * On a valid file system a path is empty exactly when it is missing or a
   * directory with nothing inside it, and a file makes the test throw.
   */
  lemma IsEmptyDirectoryIff(fs: Fs, dirPath: Path)
    requires Valid(fs)
    ensures IsEmptyDirectory(fs, dirPath) == Ok(true)
        <==> dirPath !in fs.nodes || (IsDir(fs, dirPath) && forall q | Below(dirPath, q) :: q !in fs.nodes)
    ensures IsEmptyDirectory(fs, dirPath) == Ok(false) <==> IsDir(fs, dirPath) && exists q | Below(dirPath, q) :: q in fs.nodes
    ensures IsFile(fs, dirPath) ==> IsEmptyDirectory(fs, dirPath) == Err("ENOTDIR: not a directory")
  {
    EmptyListing(fs, dirPath);
  }

  /**
   * The scaffold's path check accepts exactly the paths this test calls
   * empty, and both report the same error when the path cannot be read.
   */
  lemma ValidationAgrees(fs: Fs, dirPath: Path)
    ensures Scaffold.ValidateProjectPath(fs, dirPath).None? <==> IsEmptyDirectory(fs, dirPath) == Ok(true)
    ensures IsEmptyDirectory(fs, dirPath).Err? ==> Scaffold.ValidateProjectPath(fs, dirPath) == Some(IsEmptyDirectory(fs, dirPath).error)
  {
  }

  /** The characters of `\s` in an ECMAScript regular expression: white space and line terminators. */
  predicate IsSpace(c: char) {
    || c == '\t' || c == '\n' || c == '\U{000B}' || c == '\U{000C}' || c == '\r' || c == ' '
    || c == '\U{00A0}' || c == '\U{1680}' || ('\U{2000}' <= c <= '\U{200A}')
    || c == '\U{2028}' || c == '\U{2029}' || c == '\U{202F}' || c == '\U{205F}' || c == '\U{3000}' || c == '\U{FEFF}'
  }

  /** A character of the class `[^\s@]`. */
  predicate Plain(c: char) {
    !IsSpace(c) && c != '@'
  }

  /** A string matched by `[^\s@]+`. */
  predicate PlainRun(s: string) {
    |s| > 0 && forall k | 0 <= k < |s| :: Plain(s[k])
  }

  /**
   * `s` splits as the pattern `^[^\s@]+@[^\s@]+\.[^\s@]+$` reads, with the
   * `@` at `i` and the matched `.` at `j`.
   */
  predicate SplitsAsEmail(s: string, i: int, j: int) {
    && 0 < i && i + 1 < j && j + 1 < |s|
    && s[i] == '@' && s[j] == '.'
    && PlainRun(s[..i]) && PlainRun(s[i + 1..j]) && PlainRun(s[j + 1..])
  }

  /** The language of the e-mail pattern. */
  ghost predicate MatchesEmailPattern(s: string) {
    exists i, j :: SplitsAsEmail(s, i, j)
  }

  /** The first index of `c` in `s`, or `|s|` when there is none. */
  function IndexOf(s: string, c: char): (r: nat)
    ensures r <= |s| && (r < |s| ==> s[r] == c) && c !in s[..r]
  {
    if s == [] then 0
    else if s[0] == c then 0
    else
      var r := 1 + IndexOf(s[1..], c);
      assert s[..r] == [s[0]] + s[1..][..r - 1];
      r
  }

  /** `d` holds a `.` with at least one character on each side. */
  predicate InnerDot(d: string) {
    exists k | 0 < k < |d| - 1 :: d[k] == '.'
  }

  /**
   * isValidEmail: no white space, exactly one `@` with something before
   * it, and after it a `.` that has characters on both sides.
   */
  predicate IsValidEmail(email: string) {
    var at := IndexOf(email, '@');
    && (forall k | 0 <= k < |email| :: !IsSpace(email[k]))
    && 0 < at < |email|
    && '@' !in email[at + 1..]
    && InnerDot(email[at + 1..])
  }

  /** isValidEmail accepts exactly the strings of the pattern. */
  lemma EmailIff(s: string)
    ensures IsValidEmail(s) <==> MatchesEmailPattern(s)
  {
    if IsValidEmail(s) {
      EmailSound(s);
    }
    if MatchesEmailPattern(s) {
      EmailComplete(s);
    }
  }

  /** Every string isValidEmail accepts matches the pattern. */
  lemma EmailSound(s: string)
    requires IsValidEmail(s)
    ensures MatchesEmailPattern(s)
  {
    var i := IndexOf(s, '@');
    var d := s[i + 1..];
    var k :| 0 < k < |d| - 1 && d[k] == '.';
    var j := i + 1 + k;
    assert s[j] == d[k];
    forall m | 0 <= m < |s| && m != i ensures Plain(s[m]) {
      if m < i {
        assert s[m] == s[..i][m];
      } else {
        assert s[m] == d[m - i - 1];
      }
    }
    PlainSlice(s, 0, i);
    PlainSlice(s, i + 1, j);
    PlainSlice(s, j + 1, |s|);
    assert s[0..i] == s[..i] && s[j + 1..|s|] == s[j + 1..];
    assert SplitsAsEmail(s, i, j);
  }

  /** Every string of the pattern is accepted by isValidEmail. */
  lemma EmailComplete(s: string)
    requires MatchesEmailPattern(s)
    ensures IsValidEmail(s)
  {
    var i, j :| SplitsAsEmail(s, i, j);
    OnlyAt(s, i, j);
    var d := s[i + 1..];
    assert d[j - i - 1] == '.';
    assert s[i] in s[..i + 1];
    assert '@' !in d by {
      forall m | 0 <= m < |d| ensures d[m] != '@' { assert d[m] == s[i + 1 + m]; }
    }
    assert InnerDot(d);
  }

  /** A non-empty stretch of plain characters is a run of the class. */
  lemma PlainSlice(s: string, lo: int, hi: int)
    requires 0 <= lo < hi <= |s|
    requires forall m | lo <= m < hi :: Plain(s[m])
    ensures PlainRun(s[lo..hi])
  {
    forall k | 0 <= k < hi - lo ensures Plain(s[lo..hi][k]) {
      assert s[lo..hi][k] == s[lo + k];
    }
  }

  /** In a split the `@` is the only `@` and no character is white space. */
  lemma OnlyAt(s: string, i: int, j: int)
    requires SplitsAsEmail(s, i, j)
    ensures forall m | 0 <= m < |s| :: !IsSpace(s[m]) && (m != i ==> s[m] != '@')
  {
    forall m | 0 <= m < |s| ensures !IsSpace(s[m]) && (m != i ==> s[m] != '@') {
      if m < i {
        assert s[m] == s[..i][m];
      } else if i < m < j {
        assert s[m] == s[i + 1..j][m - i - 1];
      } else if j < m {
        assert s[m] == s[j + 1..][m - j - 1];
      }
    }
  }

  /** A string with two `@` or with a white-space character is rejected. */
  lemma RejectsTwoAtsOrSpace(s: string, a: int, b: int)
    ensures 0 <= a < b < |s| && s[a] == '@' && s[b] == '@' ==> !IsValidEmail(s)
    ensures 0 <= a < |s| && IsSpace(s[a]) ==> !IsValidEmail(s)
  {
    EmailIff(s);
    if IsValidEmail(s) {
      var i, j :| SplitsAsEmail(s, i, j);
      OnlyAt(s, i, j);
    }
  }
}

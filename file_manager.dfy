/** The static extension -> operating-system table and the path-suffix helper built on `os.path.splitext`. */
module FileManager {
  import opened Strings

  /** Which operating systems an installer file with a given extension is meant for. */
  const EXTENSION_TO_OPERATING_SYSTEM: map<string, set<string>> := map[
    ".exe" := {"windows"},
    ".msi" := {"windows"},
    ".inf" := {"windows"},
    ".run" := {"linux"},
    ".tar" := {"linux"},
    ".gz"  := {"linux"},
    ".deb" := {"linux"},
    ".rpm" := {"linux"}
  ]

  const WINDOWS_EXTENSIONS: set<string> := {".exe", ".msi", ".inf"}
  const LINUX_EXTENSIONS: set<string> := {".run", ".tar", ".gz", ".deb", ".rpm"}

  /** `target_os_ext`: the table's set for a listed extension, the empty collection otherwise. */
  function TargetOsExt(ext: string): (r: set<string>)
  {
    if ext in EXTENSION_TO_OPERATING_SYSTEM then EXTENSION_TO_OPERATING_SYSTEM[ext] else {}
  }

  /** `matches(ext, os)`: `os` is one of the systems listed for `ext`. */
  predicate Matches(ext: string, os: string)
  {
    os in TargetOsExt(ext)
  }

  /** The table lists exactly the Windows and the Linux extensions, each for its own system only. */
  lemma TargetOsExtContents(ext: string)
    ensures TargetOsExt(ext) == {"windows"} <==> ext in WINDOWS_EXTENSIONS
    ensures TargetOsExt(ext) == {"linux"} <==> ext in LINUX_EXTENSIONS
    ensures TargetOsExt(ext) == {} <==> ext !in WINDOWS_EXTENSIONS + LINUX_EXTENSIONS
  {
    assert "windows" in {"windows"} && "linux" in {"linux"};
  }

  /** An extension matches an operating system exactly when the table lists it for that system;
      an unlisted extension matches nothing. */
  lemma MatchesExactly(ext: string, os: string)
    ensures Matches(ext, os) <==>
      (os == "windows" && ext in WINDOWS_EXTENSIONS) || (os == "linux" && ext in LINUX_EXTENSIONS)
    ensures ext !in EXTENSION_TO_OPERATING_SYSTEM ==> !Matches(ext, os)
  {
    TargetOsExtContents(ext);
  }

  /** No extension is listed for both Windows and Linux. */
  lemma NoExtensionMatchesBoth(ext: string)
    ensures !(Matches(ext, "windows") && Matches(ext, "linux"))
  {
    MatchesExactly(ext, "windows");
    MatchesExactly(ext, "linux");
  }

  /** The path separators of `posixpath` and of `ntpath`. */
  const POSIX_SEPARATORS: set<char> := {'/'}
  const NT_SEPARATORS: set<char> := {'\\', '/'}

  /** True when `s` holds a character other than '.' strictly between positions `lo` and `hi`. */
  predicate HasNonDotBetween(s: string, lo: int, hi: int)
    requires -1 <= lo && hi <= |s|
  {
    exists k :: lo < k < hi && s[k] != '.'
  }

  /** `os.path.splitext(p)` with the given separators: the suffix starts at the last '.' of the last
      path component, unless that component has only dots before it. */
  function SplitExt(p: string, seps: set<char>): (r: (string, string))
    requires '.' !in seps
  {
    var sepIndex := LastIndexIn(p, seps);
    var dotIndex := LastIndexIn(p, {'.'});
    if sepIndex < dotIndex && HasNonDotBetween(p, sepIndex, dotIndex)
    then (p[..dotIndex], p[dotIndex..])
    else (p, "")
  }

  /** `get_extension`: it returns the whole `splitext` pair, not the extension. */
  function GetExtension(p: string, seps: set<char>): (r: (string, string))
    requires '.' !in seps
    ensures r.0 + r.1 == p
    ensures r.1 == "" || (r.1[0] == '.' && forall k :: 0 < k < |r.1| ==> r.1[k] != '.' && r.1[k] !in seps)
  {
    var r := SplitExt(p, seps);
    assert r.0 + r.1 == p;
    r
  }

  /** `splitext` is characterised by its result: a split `p == root + ext` is the one `splitext`
      returns with a non-empty `ext` exactly when `ext` is '.' followed by neither dots nor separators
      and the last component of `root` has some character other than '.'. */
  lemma SplitExtCharacterised(root: string, ext: string, seps: set<char>)
    requires '.' !in seps
    requires |ext| > 0 && ext[0] == '.'
    requires forall k :: 0 < k < |ext| ==> ext[k] != '.' && ext[k] !in seps
    ensures SplitExt(root + ext, seps) == (root, ext)
      <==> HasNonDotBetween(root, LastIndexIn(root, seps), |root|)
  {
    var p := root + ext;
    var d := |root|;
    LastIndexAfterPrefix(root, ext, {'.'}, 0);
    LastIndexAfterPrefix(root, ext, seps, 1);
    assert LastIndexIn(p, {'.'}) == d;
    var s := LastIndexIn(root, seps);
    assert LastIndexIn(p, seps) == s;
    assert p[..d] == root && p[d..] == ext;
    if HasNonDotBetween(root, s, d) {
      var k :| s < k < d && root[k] != '.';
      assert p[k] == root[k];
    }
    if HasNonDotBetween(p, s, d) {
      var k :| s < k < d && p[k] != '.';
      assert root[k] == p[k];
    }
  }

  /** Appending a text whose characters from `from` on avoid `cs` while its character at `from - 1` (if any) is
      in `cs`: the last index of `cs` moves accordingly. */
  lemma {:induction false} LastIndexAfterPrefix(a: string, b: string, cs: set<char>, from: nat)
    requires from <= |b|
    requires from == 1 ==> |b| > 0 && b[0] !in cs
    requires from == 0 ==> |b| > 0 && b[0] in cs
    requires from <= 1
    requires forall k :: 0 < k < |b| ==> b[k] !in cs
    ensures from == 0 ==> LastIndexIn(a + b, cs) == |a|
    ensures from == 1 ==> LastIndexIn(a + b, cs) == LastIndexIn(a, cs)
    decreases |b|
  {
    if |b| > 1 {
      var b' := b[..|b| - 1];
      assert (a + b)[..|a + b| - 1] == a + b';
      LastIndexAfterPrefix(a, b', cs, from);
    } else {
      assert (a + b)[..|a + b| - 1] == a;
    }
  }

  /** A compound suffix is split at its last dot: the extension of `nv.tar.gz` is `.gz`. */
  lemma CompoundSuffixExample()
    ensures GetExtension("drivers/nv.tar.gz", POSIX_SEPARATORS) == ("drivers/nv.tar", ".gz")
  {
    var root := "drivers/nv.tar";
    LastIndexAfterPrefix("drivers", "/nv.tar", POSIX_SEPARATORS, 0);
    assert "drivers" + "/nv.tar" == root;
    assert root[8] == 'n';
    assert HasNonDotBetween(root, LastIndexIn(root, POSIX_SEPARATORS), |root|);
    SplitExtCharacterised(root, ".gz", POSIX_SEPARATORS);
    assert root + ".gz" == "drivers/nv.tar.gz";
  }

  /** A name made of a leading dot and no other dot has no extension. */
  lemma HiddenFileExample()
    ensures GetExtension(".bashrc", POSIX_SEPARATORS) == (".bashrc", "")
  {
    assert "" + ".bashrc" == ".bashrc";
    LastIndexAfterPrefix("", ".bashrc", POSIX_SEPARATORS, 1);
    LastIndexAfterPrefix("", ".bashrc", {'.'}, 0);
  }

  /** A dot in a directory name is not an extension; `ntpath` also splits at backslashes. */
  lemma DottedDirectoryExample()
    ensures GetExtension("C:\\drv.d\\setup", NT_SEPARATORS) == ("C:\\drv.d\\setup", "")
  {
    assert "C:\\drv" + ".d\\setup" == "C:\\drv.d\\setup";
    LastIndexAfterPrefix("C:\\drv", ".d\\setup", {'.'}, 0);
    assert "C:\\drv.d" + "\\setup" == "C:\\drv.d\\setup";
    LastIndexAfterPrefix("C:\\drv.d", "\\setup", NT_SEPARATORS, 0);
  }
}

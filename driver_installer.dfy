/** The platform installer: given a driver file and the host, choose the native install commands,
    run them through an oracle and report an `InstallResult`. */
module DriverInstaller {
  import opened Strings
  import opened Options
  import FileManager

  /** A command line, program first. */
  type Cmd = seq<string>

  /** The record every install attempt produces. */
  datatype InstallResult = InstallResult(success: bool, code: int, stdout: string, stderr: string, reason: string)

  /** `InstallResult(success, reason=...)`, with the default code 0 and empty output. */
  function Refusal(reason: string): InstallResult
  {
    InstallResult(false, 0, "", "", reason)
  }

  /** What `subprocess.run` did with one command: it returned, it raised `TimeoutExpired` after the
      300-second `DEFAULT_INSTALL_TIMEOUT` (partial standard output and the exception's text), or it
      raised anything else. Whether a command exceeds the limit is part of its oracle outcome. */
  datatype CmdOutcome =
    | Exited(returnCode: int, out: string, err: string)
    | TimedOut(partialOut: string, message: string)
    | Crashed(message: string)

  /** `_run_cmd`: turn the subprocess outcome into an `InstallResult`. */
  function RunCmd(o: CmdOutcome): InstallResult
  {
    match o
    case Exited(rc, out, err) => InstallResult(rc == 0, rc, out, err, "")
    case TimedOut(out, msg) => InstallResult(false, -1, out, msg, "timeout")
    case Crashed(msg) => InstallResult(false, -2, "", msg, "exception")
  }

  /** Success holds exactly for a zero exit code; the reason tells a normal exit, a timeout and an
      exception apart, and the code and both outputs are carried over. */
  lemma RunCmdOutcome(o: CmdOutcome)
    ensures RunCmd(o).success <==> o.Exited? && o.returnCode == 0
    ensures RunCmd(o).reason == "" <==> o.Exited?
    ensures RunCmd(o).reason == "timeout" <==> o.TimedOut?
    ensures RunCmd(o).reason == "exception" <==> o.Crashed?
    ensures o.Exited? ==> RunCmd(o).code == o.returnCode && RunCmd(o).stdout == o.out && RunCmd(o).stderr == o.err
    ensures o.TimedOut? ==> RunCmd(o).code == -1 && RunCmd(o).stdout == o.partialOut && RunCmd(o).stderr == o.message
    ensures o.Crashed? ==> RunCmd(o).code == -2 && RunCmd(o).stdout == "" && RunCmd(o).stderr == o.message
  {
  }

  /** How an installer function finished: it returned a result or raised an exception with this text. */
  datatype Completion = Returned(result: InstallResult) | Raised(error: string)

  /** One install call: how it finished and the commands it ran, in order. */
  datatype Attempt = Attempt(completion: Completion, ran: seq<Cmd>)

  /** The host as the installer sees it: `platform.system()`, the paths that exist and the
      `SystemRoot` environment variable. */
  datatype Host = Host(platform: string, files: set<string>, systemRoot: Option<string>)

  /** The outside world during one install call: `run(k)` is the outcome of the k-th command it runs,
      `extracted` the names found at the root of the scratch directory after `tar` succeeds. */
  datatype Oracle = Oracle(run: nat -> CmdOutcome, extracted: set<string>)

  /** The value bound to the helpers' `ext` parameter. It is annotated as a string, but
      `install_driver` passes the `(root, ext)` pair that `get_extension` returns. */
  datatype ExtValue = ExtString(text: string) | ExtPair(root: string, suffix: string)

  /** The text of the `NameError` raised by the unsupported-extension branches, which refer to the
      undefined name `full_ext`. */
  const FULL_EXT_NAME_ERROR := "name 'full_ext' is not defined"

  /** A call that runs exactly `cmd` and returns its result. */
  function RunOne(cmd: Cmd, oracle: Oracle): Attempt
  {
    Attempt(Returned(RunCmd(oracle.run(0))), [cmd])
  }

  // ---------- Windows ----------

  /** `ntpath.join(a, b)` for a relative `b`: a backslash goes in between unless `a` is empty or
      already ends in a separator or a drive colon. */
  function NtJoin(a: string, b: string): string
  {
    if a == "" || a[|a| - 1] in {'\\', '/', ':'} then a + b else a + "\\" + b
  }

  /** `%SystemRoot%\System32\pnputil.exe`, with `C:\Windows` when the variable is unset. */
  function PnputilPath(host: Host): string
  {
    var root := if host.systemRoot.Some? then host.systemRoot.value else "C:\\Windows";
    NtJoin(NtJoin(root, "System32"), "pnputil.exe")
  }

  function InfCommand(host: Host, path: string): Cmd
  {
    if PnputilPath(host) in host.files then [PnputilPath(host), "-i", "-a", path]
    else ["dism", "/online", "/add-driver", "/driver:" + path, "/install"]
  }

  function MsiCommand(path: string, args: seq<string>): Cmd
  {
    ["msiexec", "/i", path, "/qn"] + args
  }

  /** `_windows_install`. */
  function WindowsInstall(host: Host, path: string, ext: ExtValue, args: seq<string>, oracle: Oracle): Attempt
  {
    if ext == ExtString(".inf") then RunOne(InfCommand(host, path), oracle)
    else if ext == ExtString(".msi") then RunOne(MsiCommand(path, args), oracle)
    else if ext == ExtString(".exe") then RunOne([path], oracle)
    else Attempt(Raised(FULL_EXT_NAME_ERROR), [])
  }

  /** A Windows extension runs exactly one command and returns its result: `.inf` stages the driver
      with pnputil when pnputil exists and with dism otherwise, `.msi` runs msiexec silently with the
      caller's arguments, `.exe` runs the file itself with no arguments at all. */
  lemma WindowsCommands(host: Host, path: string, e: string, args: seq<string>, oracle: Oracle)
    requires e in FileManager.WINDOWS_EXTENSIONS
    ensures WindowsInstall(host, path, ExtString(e), args, oracle).completion == Returned(RunCmd(oracle.run(0)))
    ensures e == ".inf" && PnputilPath(host) in host.files ==>
      WindowsInstall(host, path, ExtString(e), args, oracle).ran == [[PnputilPath(host), "-i", "-a", path]]
    ensures e == ".inf" && PnputilPath(host) !in host.files ==>
      WindowsInstall(host, path, ExtString(e), args, oracle).ran == [["dism", "/online", "/add-driver", "/driver:" + path, "/install"]]
    ensures e == ".msi" ==> WindowsInstall(host, path, ExtString(e), args, oracle).ran == [["msiexec", "/i", path, "/qn"] + args]
    ensures e == ".exe" ==> WindowsInstall(host, path, ExtString(e), args, oracle).ran == [[path]]
  {
  }

  /** Without `SystemRoot` the pnputil location is the stock one. */
  lemma DefaultPnputilPath(host: Host)
    requires host.systemRoot.None?
    ensures PnputilPath(host) == "C:\\Windows\\System32\\pnputil.exe"
  {
  }

  /** The caller's arguments never reach an `.exe` installer. */
  lemma ExeIgnoresArguments(host: Host, path: string, args1: seq<string>, args2: seq<string>, oracle: Oracle)
    ensures WindowsInstall(host, path, ExtString(".exe"), args1, oracle) == WindowsInstall(host, path, ExtString(".exe"), args2, oracle)
  {
  }

  // ---------- Linux ----------

  function DpkgCommand(path: string): Cmd
  {
    ["sudo", "dpkg", "-i", path]
  }

  const APT_FIX_COMMAND: Cmd := ["sudo", "apt-get", "-y", "install", "-f"]

  /** The `.deb` branch: dpkg; if it failed, the dependency fix; if that succeeded, dpkg once more. */
  function DebInstall(path: string, oracle: Oracle): Attempt
  {
    var first := RunCmd(oracle.run(0));
    if first.success then Attempt(Returned(first), [DpkgCommand(path)])
    else
      var fix := RunCmd(oracle.run(1));
      if fix.success then Attempt(Returned(RunCmd(oracle.run(2))), [DpkgCommand(path), APT_FIX_COMMAND, DpkgCommand(path)])
      else Attempt(Returned(first), [DpkgCommand(path), APT_FIX_COMMAND])
  }

  /** The scripts looked for in an extracted archive, in the order they are tried. */
  const INSTALLER_SCRIPTS: seq<string> := ["install.sh", "setup.sh", "install"]

  /** The first of `names` that is in `entries`. */
  function FirstPresent(names: seq<string>, entries: set<string>): Option<string>
  {
    if names == [] then None
    else if names[0] in entries then Some(names[0])
    else FirstPresent(names[1..], entries)
  }

  /** `FirstPresent` finds a name that is present and preceded only by missing ones. */
  lemma {:induction false} FirstPresentIsFirst(names: seq<string>, entries: set<string>)
    ensures var r := FirstPresent(names, entries);
      r.Some? ==> exists i :: 0 <= i < |names| && names[i] == r.value && r.value in entries &&
                              forall j :: 0 <= j < i ==> names[j] !in entries
  {
    if names != [] && names[0] !in entries {
      FirstPresentIsFirst(names[1..], entries);
      var r := FirstPresent(names[1..], entries);
      if r.Some? {
        var i :| 0 <= i < |names| - 1 && names[1..][i] == r.value && r.value in entries &&
                 forall j :: 0 <= j < i ==> names[1..][j] !in entries;
        assert names[i + 1] == r.value;
        forall j | 0 <= j < i + 1 ensures names[j] !in entries {
          if j > 0 { assert names[j] == names[1..][j - 1]; }
        }
      }
    }
  }

  /** `FirstPresent` finds nothing exactly when every name is missing. */
  lemma {:induction false} FirstPresentNone(names: seq<string>, entries: set<string>)
    ensures FirstPresent(names, entries).None? <==> forall i :: 0 <= i < |names| ==> names[i] !in entries
  {
    if names != [] && names[0] !in entries {
      FirstPresentNone(names[1..], entries);
      if FirstPresent(names[1..], entries).None? {
        forall i | 0 <= i < |names| ensures names[i] !in entries {
          if i > 0 { assert names[i] == names[1..][i - 1]; }
        }
      } else {
        var i :| 0 <= i < |names| - 1 && names[1..][i] in entries;
        assert names[i + 1] in entries;
      }
    }
  }

  /** The scan over the installer scripts: the first one present in the extraction directory. */
  method FindInstallerScript(entries: set<string>) returns (found: Option<string>)
    ensures found == FirstPresent(INSTALLER_SCRIPTS, entries)
  {
    for i := 0 to |INSTALLER_SCRIPTS|
      invariant forall j :: 0 <= j < i ==> INSTALLER_SCRIPTS[j] !in entries
    {
      var script := INSTALLER_SCRIPTS[i];
      if script in entries {
        found := Some(script);
        ScanStopsAtFirst(INSTALLER_SCRIPTS, entries, i);
        return;
      }
    }
    FirstPresentNone(INSTALLER_SCRIPTS, entries);
    found := None;
  }

  /** Where the scan over `names` stops when every name before position `i` is missing and `names[i]` is present. */
  lemma {:induction false} ScanStopsAtFirst(names: seq<string>, entries: set<string>, i: nat)
    requires i < |names| && names[i] in entries
    requires forall j :: 0 <= j < i ==> names[j] !in entries
    ensures FirstPresent(names, entries) == Some(names[i])
    decreases i
  {
    if i > 0 {
      assert names[1..][i - 1] == names[i];
      ScanStopsAtFirst(names[1..], entries, i - 1);
    }
  }

  /** The last component of a POSIX path. */
  function FileName(path: string): string
  {
    path[LastIndexIn(path, {'/'}) + 1..]
  }

  /** `Path(path).stem`: the file name without its last suffix. */
  function Stem(path: string): string
  {
    var name := FileName(path);
    var i := LastIndexIn(name, {'.'});
    if 0 < i < |name| - 1 then name[..i] else name
  }

  /** The scratch directory an archive is extracted into. */
  function ArchiveDir(path: string): string
  {
    "/tmp/driver_install_" + Stem(path)
  }

  function ExtractCommand(path: string): Cmd
  {
    ["tar", "-xvf", path, "-C", ArchiveDir(path)]
  }

  /** The archive branch: extract into a fresh scratch directory, then run the first installer
      script found there, or report that the archive was only extracted. The directory is removed
      and re-created first, so only what `tar` extracted can be found in it. */
  function ArchiveInstall(path: string, args: seq<string>, oracle: Oracle): Attempt
  {
    var dir := ArchiveDir(path);
    var extraction := RunCmd(oracle.run(0));
    if !extraction.success then Attempt(Returned(extraction), [ExtractCommand(path)])
    else match FirstPresent(INSTALLER_SCRIPTS, oracle.extracted)
      case Some(script) =>
        Attempt(Returned(RunCmd(oracle.run(1))), [ExtractCommand(path), ["sudo", "bash", dir + "/" + script] + args])
      case None =>
        Attempt(Returned(InstallResult(true, 0, "Extracted to " + dir, "", "extracted_only")), [ExtractCommand(path)])
  }

  /** `_linux_install`. The archive branch is selected by `tar` and `gz` written without a dot. */
  function LinuxInstall(path: string, ext: ExtValue, args: seq<string>, oracle: Oracle): Attempt
  {
    if ext == ExtString(".deb") then DebInstall(path, oracle)
    else if ext == ExtString(".rpm") then RunOne(["sudo", "rpm", "-Uvh", path], oracle)
    else if ext == ExtString(".run") then RunOne(["sudo", "bash", path] + args, oracle)
    else if ext == ExtString("tar") || ext == ExtString("gz") then ArchiveInstall(path, args, oracle)
    else Attempt(Raised(FULL_EXT_NAME_ERROR), [])
  }

  /** `.deb`: dpkg runs first; the fix runs only when dpkg failed; dpkg is retried at most once and only
      when the fix succeeded; the result is that of the last dpkg run. */
  lemma DebRetriesOnce(path: string, args: seq<string>, oracle: Oracle)
    ensures var a := LinuxInstall(path, ExtString(".deb"), args, oracle);
      && 1 <= |a.ran| <= 3
      && a.ran[0] == DpkgCommand(path)
      && (|a.ran| >= 2 <==> !RunCmd(oracle.run(0)).success)
      && (|a.ran| >= 2 ==> a.ran[1] == APT_FIX_COMMAND)
      && (|a.ran| == 3 <==> !RunCmd(oracle.run(0)).success && RunCmd(oracle.run(1)).success)
      && (|a.ran| == 3 ==> a.ran[2] == DpkgCommand(path))
      && a.completion == Returned(RunCmd(oracle.run(if |a.ran| == 3 then 2 else 0)))
  {
  }

  /** A `.deb` whose first dpkg run fails, whose dependency fix succeeds and whose retry succeeds
      reports the retry's result, which is a success. */
  lemma DebSucceedsAfterFix(path: string, args: seq<string>, oracle: Oracle)
    requires !RunCmd(oracle.run(0)).success && RunCmd(oracle.run(1)).success && RunCmd(oracle.run(2)).success
    ensures LinuxInstall(path, ExtString(".deb"), args, oracle).completion == Returned(RunCmd(oracle.run(2)))
    ensures LinuxInstall(path, ExtString(".deb"), args, oracle).completion.result.success
  {
  }

  /** `.rpm` upgrades with rpm; `.run` is run through bash with the caller's arguments (whether making
      it executable worked has no influence). Each runs one command and returns its result. */
  lemma RpmAndRunCommands(path: string, args: seq<string>, oracle: Oracle)
    ensures LinuxInstall(path, ExtString(".rpm"), args, oracle) == Attempt(Returned(RunCmd(oracle.run(0))), [["sudo", "rpm", "-Uvh", path]])
    ensures LinuxInstall(path, ExtString(".run"), args, oracle) == Attempt(Returned(RunCmd(oracle.run(0))), [["sudo", "bash", path] + args])
  {
  }

  /** Archives: extraction into the scratch directory comes first, and a failed extraction is
      returned as it is. */
  lemma ArchiveOutcome(path: string, ext: string, args: seq<string>, oracle: Oracle)
    requires ext == "tar" || ext == "gz"
    ensures var a := LinuxInstall(path, ExtString(ext), args, oracle);
      && a.ran[0] == ["tar", "-xvf", path, "-C", ArchiveDir(path)]
      && (!RunCmd(oracle.run(0)).success ==> a == Attempt(Returned(RunCmd(oracle.run(0))), [a.ran[0]]))
  {
  }

  /** A successful extraction without any of the installer scripts is a success marked
      `extracted_only`, and nothing runs after `tar`. */
  lemma ArchiveExtractedOnly(path: string, ext: string, args: seq<string>, oracle: Oracle)
    requires ext == "tar" || ext == "gz"
    requires RunCmd(oracle.run(0)).success
    requires forall s :: s in INSTALLER_SCRIPTS ==> s !in oracle.extracted
    ensures LinuxInstall(path, ExtString(ext), args, oracle) ==
      Attempt(Returned(InstallResult(true, 0, "Extracted to " + ArchiveDir(path), "", "extracted_only")), [ExtractCommand(path)])
  {
    assert forall i :: 0 <= i < |INSTALLER_SCRIPTS| ==> INSTALLER_SCRIPTS[i] !in oracle.extracted;
    FirstPresentNone(INSTALLER_SCRIPTS, oracle.extracted);
  }

  /** The scripts are tried in the order install.sh, setup.sh, install: the one that runs is present
      and every script before it is missing. */
  lemma ArchiveRunsFirstScript(path: string, ext: string, args: seq<string>, oracle: Oracle, k: nat)
    requires ext == "tar" || ext == "gz"
    requires RunCmd(oracle.run(0)).success
    requires k < |INSTALLER_SCRIPTS| && INSTALLER_SCRIPTS[k] in oracle.extracted
    requires forall j :: 0 <= j < k ==> INSTALLER_SCRIPTS[j] !in oracle.extracted
    ensures LinuxInstall(path, ExtString(ext), args, oracle) ==
      Attempt(Returned(RunCmd(oracle.run(1))),
              [ExtractCommand(path), ["sudo", "bash", ArchiveDir(path) + "/" + INSTALLER_SCRIPTS[k]] + args])
  {
    ScanStopsAtFirst(INSTALLER_SCRIPTS, oracle.extracted, k);
  }

  /** An archive holding `setup.sh` alone: it is extracted, `setup.sh` runs with sudo, and success
      mirrors the script's exit code. */
  lemma SetupOnlyArchive(args: seq<string>, oracle: Oracle)
    requires RunCmd(oracle.run(0)).success && oracle.extracted == {"setup.sh"}
    ensures var a := LinuxInstall("/srv/nv.tar", ExtString("tar"), args, oracle);
      && a.ran == [["tar", "-xvf", "/srv/nv.tar", "-C", "/tmp/driver_install_nv"],
                   ["sudo", "bash", "/tmp/driver_install_nv/setup.sh"] + args]
      && a.completion == Returned(RunCmd(oracle.run(1)))
      && (a.completion.result.success <==> oracle.run(1).Exited? && oracle.run(1).returnCode == 0)
  {
    NvArchiveDir();
    assert "/tmp/driver_install_nv" + "/" + "setup.sh" == "/tmp/driver_install_nv/setup.sh";
    ArchiveRunsFirstScript("/srv/nv.tar", "tar", args, oracle, 1);
  }

  /** The scratch directory of `/srv/nv.tar` is named after its stem `nv`. */
  lemma NvArchiveDir()
    ensures ArchiveDir("/srv/nv.tar") == "/tmp/driver_install_nv"
  {
    NvFileName();
    assert "nv.tar" == "nv" + ".tar";
    LastIndexAfter("nv", ".tar", '.');
  }

  lemma NvFileName()
    ensures FileName("/srv/nv.tar") == "nv.tar"
  {
    var p := "/srv" + "/nv.tar";
    forall i | 0 <= i < 11 ensures p[i] == "/srv/nv.tar"[i] {
    }
    assert p == "/srv/nv.tar";
    LastIndexAfter("/srv", "/nv.tar", '/');
    assert p[5..] == "nv.tar";
  }

  /** A string ending in `c` followed by characters other than `c`: its last `c` is where `b` starts. */
  lemma {:induction false} LastIndexAfter(a: string, b: string, c: char)
    requires |b| > 0 && b[0] == c
    requires forall k :: 0 < k < |b| ==> b[k] != c
    ensures LastIndexIn(a + b, {c}) == |a|
    decreases |b|
  {
    if |b| > 1 {
      assert (a + b)[..|a + b| - 1] == a + b[..|b| - 1];
      LastIndexAfter(a, b[..|b| - 1], c);
    } else {
      assert (a + b)[..|a + b| - 1] == a;
    }
  }

  /** The archive branch asks for `tar` and `gz` without a dot, so the dotted extensions of the
      table raise, like every other extension the helper does not know. */
  lemma DottedArchiveSuffixRaises(path: string, args: seq<string>, oracle: Oracle)
    ensures LinuxInstall(path, ExtString(".tar"), args, oracle) == Attempt(Raised(FULL_EXT_NAME_ERROR), [])
    ensures LinuxInstall(path, ExtString(".gz"), args, oracle) == Attempt(Raised(FULL_EXT_NAME_ERROR), [])
  {
  }

  /** An extension neither helper knows raises the `NameError` and runs nothing. */
  lemma UnknownExtensionRaises(host: Host, path: string, ext: ExtValue, args: seq<string>, oracle: Oracle)
    ensures ext !in {ExtString(".inf"), ExtString(".msi"), ExtString(".exe")} <==>
            WindowsInstall(host, path, ext, args, oracle) == Attempt(Raised(FULL_EXT_NAME_ERROR), [])
    ensures ext !in {ExtString(".deb"), ExtString(".rpm"), ExtString(".run"), ExtString("tar"), ExtString("gz")} <==>
            LinuxInstall(path, ext, args, oracle) == Attempt(Raised(FULL_EXT_NAME_ERROR), [])
  {
    if ext == ExtString("tar") || ext == ExtString("gz") {
      assert ArchiveInstall(path, args, oracle).completion.Returned?;
    }
  }

  // ---------- Dispatch ----------

  function Lowered(host: Host): string
  {
    Lower(host.platform)
  }

  /** `platform.system().lower()` names Windows. */
  predicate OnWindows(host: Host)
  {
    StartsWith(Lowered(host), "win")
  }

  /** The separators `os.path` uses on the host. */
  function HostSeparators(host: Host): (seps: set<char>)
    ensures '.' !in seps
  {
    if OnWindows(host) then FileManager.NT_SEPARATORS else FileManager.POSIX_SEPARATORS
  }

  /** The value `install_driver` hands to the helpers as `ext`: the whole `get_extension` pair. */
  function ExtArgument(host: Host, path: string): ExtValue
  {
    var pair := FileManager.GetExtension(path, HostSeparators(host));
    ExtPair(pair.0, pair.1)
  }

  /** `install_driver`. The extension table is consulted only for a log line, so it plays no part here. */
  function InstallDriver(host: Host, path: string, args: seq<string>, oracle: Oracle): Attempt
  {
    if path !in host.files then Attempt(Returned(Refusal("file_not_found")), [])
    else if OnWindows(host) then WindowsInstall(host, path, ExtArgument(host, path), args, oracle)
    else if StartsWith(Lowered(host), "linux") then LinuxInstall(path, ExtArgument(host, path), args, oracle)
    else Attempt(Returned(Refusal("Unsupported platform: " + Lowered(host))), [])
  }

  /** A missing file is refused with `file_not_found` before anything else, and nothing runs. */
  lemma MissingFileRefused(host: Host, path: string, args: seq<string>, oracle: Oracle)
    requires path !in host.files
    ensures InstallDriver(host, path, args, oracle) == Attempt(Returned(InstallResult(false, 0, "", "", "file_not_found")), [])
  {
  }

  /** For an existing file the platform alone selects the helper; the table is never a refusal.
      The selection depends only on the host and the path. */
  lemma PlatformDispatch(host: Host, path: string, args: seq<string>, oracle: Oracle)
    requires path in host.files
    ensures StartsWith(Lower(host.platform), "win") ==>
      InstallDriver(host, path, args, oracle) == WindowsInstall(host, path, ExtArgument(host, path), args, oracle)
    ensures !StartsWith(Lower(host.platform), "win") && StartsWith(Lower(host.platform), "linux") ==>
      InstallDriver(host, path, args, oracle) == LinuxInstall(path, ExtArgument(host, path), args, oracle)
    ensures !StartsWith(Lower(host.platform), "win") && !StartsWith(Lower(host.platform), "linux") ==>
      InstallDriver(host, path, args, oracle) == Attempt(Returned(Refusal("Unsupported platform: " + Lower(host.platform))), [])
  {
  }

  /** The helpers compare `ext` with strings, and the pair `install_driver` passes equals none of them. */
  lemma PairNeverSelectsABranch(host: Host, path: string, root: string, suffix: string, args: seq<string>, oracle: Oracle)
    ensures WindowsInstall(host, path, ExtPair(root, suffix), args, oracle) == Attempt(Raised(FULL_EXT_NAME_ERROR), [])
    ensures LinuxInstall(path, ExtPair(root, suffix), args, oracle) == Attempt(Raised(FULL_EXT_NAME_ERROR), [])
  {
    UnknownExtensionRaises(host, path, ExtPair(root, suffix), args, oracle);
  }

  /** As written, `install_driver` never runs a command: it refuses a missing file, refuses an unknown
      platform, and otherwise raises the `NameError` from the helper's last branch. */
  lemma InstallDriverNeverRunsACommand(host: Host, path: string, args: seq<string>, oracle: Oracle)
    ensures InstallDriver(host, path, args, oracle).ran == []
    ensures InstallDriver(host, path, args, oracle).completion.Raised? <==>
      path in host.files && (StartsWith(Lower(host.platform), "win") || StartsWith(Lower(host.platform), "linux"))
    ensures InstallDriver(host, path, args, oracle).completion.Raised? ==>
      InstallDriver(host, path, args, oracle).completion.error == FULL_EXT_NAME_ERROR
  {
    if path in host.files {
      var e := ExtArgument(host, path);
      PairNeverSelectsABranch(host, path, e.root, e.suffix, args, oracle);
    }
  }

  // ---------- Results as dictionaries and the batch ----------

  /** A value stored in a result dictionary. */
  datatype Field = BoolField(b: bool) | IntField(i: int) | StrField(s: string)

  type Record = map<string, Field>

  /** `InstallResult.as_dict`. */
  function AsDict(r: InstallResult): Record
  {
    map["success" := BoolField(r.success), "code" := IntField(r.code), "stdout" := StrField(r.stdout),
        "stderr" := StrField(r.stderr), "reason" := StrField(r.reason)]
  }

  /** Reads an `as_dict` dictionary back; `None` for any other shape. */
  function FromDict(d: Record): Option<InstallResult>
  {
    if && "success" in d && d["success"].BoolField? && "code" in d && d["code"].IntField?
       && "stdout" in d && d["stdout"].StrField? && "stderr" in d && d["stderr"].StrField?
       && "reason" in d && d["reason"].StrField?
    then Some(InstallResult(d["success"].b, d["code"].i, d["stdout"].s, d["stderr"].s, d["reason"].s))
    else None
  }

  /** The record written when `install_driver` raised. */
  function ExceptionRecord(message: string): Record
  {
    map["success" := BoolField(false), "reason" := StrField("exception"), "stderr" := StrField(message)]
  }

  /** `as_dict` has the five keys and loses nothing; the exception record is told apart from it. */
  lemma AsDictRoundTrip(r: InstallResult, message: string)
    ensures AsDict(r).Keys == {"success", "code", "stdout", "stderr", "reason"}
    ensures FromDict(AsDict(r)) == Some(r)
    ensures FromDict(ExceptionRecord(message)) == None
  {
    assert "code" !in ExceptionRecord(message);
  }

  /** The entry the batch stores for one file. */
  function BatchEntry(host: Host, path: string, args: seq<string>, oracle: Oracle): Record
  {
    match InstallDriver(host, path, args, oracle).completion
    case Returned(r) => AsDict(r)
    case Raised(e) => ExceptionRecord(e)
  }

  /** `files[k]` does not occur again before position `n`. */
  predicate LastBefore(files: seq<string>, k: int, n: int)
    requires 0 <= k < n <= |files|
  {
    files[k] !in files[k + 1..n]
  }

  /** `install_drivers`: every file is attempted in order, with the `i`-th file's world given by `oracles(i)`;
      every path gets an entry, and a path listed twice keeps the entry of its last occurrence. */
  method InstallDrivers(host: Host, files: seq<string>, args: seq<string>, oracles: nat -> Oracle)
    returns (results: map<string, Record>)
    ensures forall f :: f in results <==> f in files
    ensures forall i :: 0 <= i < |files| && LastBefore(files, i, |files|) ==>
      files[i] in results && results[files[i]] == BatchEntry(host, files[i], args, oracles(i))
  {
    results := map[];
    for i := 0 to |files|
      invariant forall f :: f in results <==> f in files[..i]
      invariant forall k :: 0 <= k < i && LastBefore(files, k, i) ==>
        files[k] in results && results[files[k]] == BatchEntry(host, files[k], args, oracles(k))
    {
      results := results[files[i] := BatchEntry(host, files[i], args, oracles(i))];
      assert files[..i + 1] == files[..i] + [files[i]];
      forall k | 0 <= k < i + 1 && LastBefore(files, k, i + 1)
        ensures files[k] in results && results[files[k]] == BatchEntry(host, files[k], args, oracles(k))
      {
        if k < i {
          assert files[k + 1..i + 1] == files[k + 1..i] + [files[i]];
          assert LastBefore(files, k, i);
        }
      }
    }
    assert files[..|files|] == files;
  }

  /** On a Linux host, existing `a.msi` and `b.deb` both end in the exception record, because the
      helper receives the `get_extension` pair. */
  lemma LinuxBatchExample(files: set<string>, args: seq<string>, oracle: Oracle)
    requires "a.msi" in files && "b.deb" in files
    ensures BatchEntry(Host("Linux", files, None), "a.msi", args, oracle) == ExceptionRecord(FULL_EXT_NAME_ERROR)
    ensures BatchEntry(Host("Linux", files, None), "b.deb", args, oracle) == ExceptionRecord(FULL_EXT_NAME_ERROR)
  {
    var host := Host("Linux", files, None);
    assert Lower("Linux") == "linux";
    InstallDriverNeverRunsACommand(host, "a.msi", args, oracle);
    InstallDriverNeverRunsACommand(host, "b.deb", args, oracle);
  }
}

# driver-manager core, modelled in Dafny

driver-manager pushes driver installers from a master to client machines. The model covers four parts of its core:

- **Registry and broadcast (master).** `Master.WebServer` holds the live connections, the OS each one declared in its handshake, and one outbox per connection. `Broadcast` sends a payload to the connected clients whose declared OS is in the target set and returns how many it counted.
- **Connection state machine (client).** `Client.ClientAgent` connects and sends the `{"os": ...}` handshake. It turns `{"file": path}` directives into install requests, skips messages that are not JSON, and reconnects with a capped exponential backoff.
- **Installer dispatch (client).** `DriverInstaller` covers three things:
  - which native commands `install_driver` runs for a file on Windows and on Linux, and how each command's outcome becomes an `InstallResult`;
  - how `install_drivers` builds its per-file result map;
  - how `as_dict` renders a result.
- **Extension table.** `FileManager` holds the static map from extension to OS, `target_os_ext` and `matches`, plus `get_extension`, which is `os.path.splitext`.

The outside world enters as parameters:

- A command's outcome (exit code, timeout or exception) is the `k`-th value of an oracle `run: nat -> CmdOutcome`.
- The names found in an extracted archive are an oracle set.
- The filesystem is the set of paths that exist.
- The platform name and `SystemRoot` are fields of `Host`.
- For the client, one iteration of the `run` loop is a `Round`: whether the connect succeeded, whether the handshake got onto the wire, which messages arrived, and how the stream ended.
- On both sides, a received frame is either not JSON or a decoded `Json` value.

Reconnect delays are exact `real`s.

## How the model follows the code

Where the code does something other than what its own comments and failure branches show was meant, the model follows the code:

- `get_extension` returns the whole `splitext` pair, and `install_driver` passes that pair to the helpers as `ext`. The helpers compare `ext` with strings, and the pair equals none of them. So for an existing file on a Windows or Linux host, every helper branch is missed and the last branch is reached.
- That last branch refers to the undefined name `full_ext` and raises `NameError`. Those branches are themselves the failure paths (`driverInstaller.py:98` and `:145`), and their own `return InstallResult(False, reason=...)` shows that they were meant to return an unsuccessful result, not raise. `install_drivers` then stores its exception record for the file.
  - `DriverInstaller.InstallDriverNeverRunsACommand` and `DriverInstaller.LinuxBatchExample` show this.
  - The helpers are also modelled over a plain string `ext`, as their signatures say, and their branches are proved for that case.
- The archive branch of `_linux_install` tests `"tar"` and `"gz"`, without the dot. So `.tar` and `.gz` fall through to the `NameError` (`DriverInstaller.DottedArchiveSuffixRaises`).
- The `.exe` branch ignores the caller's arguments. The module docstring and the comment at `driverInstaller.py:7` and `:93` say it runs with `/S` or with the caller's arguments, but the code uses an empty list (`DriverInstaller.ExeIgnoresArguments`).
- `handle_handshake` is not limited to the first message. It overwrites the client's entry on every message that has an `os` key, so the last one wins (`Master.WebServer.HandleHandshake`).
- On the master, a message that is not JSON ends the whole handler, although it is logged as "Ignored" (`webServer.py:36`). This is because the decode error is caught outside the message loop. The client unregisters at that point (`Master.NonJsonEndsHandler`). On the client, such a message is skipped (`Client.NonJsonSkipped`).
- `'os' in json` is Python's `in`:
  - on an object it tests for a key;
  - on a list it tests for an element;
  - on a string it tests for a substring;
  - on anything else it raises `TypeError`, and so does the lookup `json['os']` on a list or string that passed the test.

  `Master.HandshakeEffect` spells this out. A `TypeError` ends the handler, which then unregisters the client.
- `driverInstaller.py:30-39` holds a second copy of the extension table that the code never reads: `install_driver` consults only `FileManager.matches`. The model keeps only the `FileManager` table.
- `broadcast` indexes `client_os` for every connected client. It therefore needs every connected client to have declared a hashable OS value, and this is its precondition.

## Model

| member | source | states |
|---|---|---|
| FileManager.TargetOsExt | drivermanager/common/fileManager.py:23-26 | definition; properties in `FileManager.TargetOsExtContents` |
| FileManager.Matches | drivermanager/common/fileManager.py:28-29 | definition; properties in `FileManager.MatchesExactly` and `FileManager.NoExtensionMatchesBoth` |
| FileManager.SplitExt | drivermanager/common/fileManager.py:16-17 | definition; properties in `FileManager.GetExtension` and `FileManager.SplitExtCharacterised` |
| FileManager.TargetOsExtContents | drivermanager/common/fileManager.py:3-12 | the table gives `{"windows"}` exactly for `.exe`, `.msi`, `.inf`, `{"linux"}` exactly for `.run`, `.tar`, `.gz`, `.deb`, `.rpm`, and the empty set for every other extension |
| FileManager.MatchesExactly | drivermanager/common/fileManager.py:23-29 | `matches(ext, os)` holds iff the table lists `ext` for `os`; it is false for every unlisted extension |
| FileManager.NoExtensionMatchesBoth | drivermanager/common/fileManager.py:3-12 | no extension matches both Windows and Linux |
| FileManager.GetExtension | drivermanager/common/fileManager.py:16-17 | `get_extension` returns a pair `(root, ext)` with `root + ext == p`; `ext` is empty or a dot followed by no dot and no separator |
| FileManager.SplitExtCharacterised | drivermanager/common/fileManager.py:16-17 | for a dot-led suffix with no further dots or separators, `splitext(root + ext) == (root, ext)` iff the last component of `root` has a character other than a dot |
| FileManager.CompoundSuffixExample | drivermanager/common/fileManager.py:16-17 | `drivers/nv.tar.gz` splits as `("drivers/nv.tar", ".gz")` |
| FileManager.HiddenFileExample | drivermanager/common/fileManager.py:16-17 | `.bashrc` has no extension |
| FileManager.DottedDirectoryExample | drivermanager/common/fileManager.py:16-17 | with `ntpath` separators, a dot in a directory name is not an extension |
| Strings.Lower | drivermanager/client/driverInstaller.py:156 | lower-casing keeps the length, leaves no upper-case letter, turns each upper-case letter into the lower-case letter at the same position in the alphabet, and keeps every other character |
| Strings.LowerIdempotent | drivermanager/client/driverInstaller.py:156 | lower-casing an already lower-cased name changes nothing |
| Strings.LowerPlatformNames | drivermanager/client/driverInstaller.py:156-168 | `Windows` and `Linux` become `windows` and `linux`, the names the dispatch tests |
| DriverInstaller.RunCmd | drivermanager/client/driverInstaller.py:62-73 | definition; properties in `DriverInstaller.RunCmdOutcome` |
| DriverInstaller.WindowsInstall | drivermanager/client/driverInstaller.py:76-98 | definition; properties in `DriverInstaller.WindowsCommands`, `DriverInstaller.ExeIgnoresArguments` and `DriverInstaller.UnknownExtensionRaises` |
| DriverInstaller.LinuxInstall | drivermanager/client/driverInstaller.py:101-145 | definition; properties in `DriverInstaller.RpmAndRunCommands`, `DriverInstaller.DottedArchiveSuffixRaises` and `DriverInstaller.UnknownExtensionRaises` |
| DriverInstaller.DebInstall | drivermanager/client/driverInstaller.py:104-112 | definition; properties in `DriverInstaller.DebRetriesOnce` and `DriverInstaller.DebSucceedsAfterFix` |
| DriverInstaller.ArchiveInstall | drivermanager/client/driverInstaller.py:123-143 | definition; properties in `DriverInstaller.ArchiveOutcome`, `DriverInstaller.ArchiveExtractedOnly` and `DriverInstaller.ArchiveRunsFirstScript` |
| DriverInstaller.InstallDriver | drivermanager/client/driverInstaller.py:148-170 | definition; properties in `DriverInstaller.MissingFileRefused`, `DriverInstaller.PlatformDispatch` and `DriverInstaller.InstallDriverNeverRunsACommand` |
| DriverInstaller.ExtArgument | drivermanager/client/driverInstaller.py:157 | definition; properties in `DriverInstaller.PairNeverSelectsABranch` and `DriverInstaller.InstallDriverNeverRunsACommand` |
| DriverInstaller.AsDict | drivermanager/client/driverInstaller.py:52-59 | definition; properties in `DriverInstaller.AsDictRoundTrip` |
| DriverInstaller.ExceptionRecord | drivermanager/client/driverInstaller.py:188 | definition; properties in `DriverInstaller.AsDictRoundTrip` and `DriverInstaller.InstallDrivers` |
| DriverInstaller.BatchEntry | drivermanager/client/driverInstaller.py:182-188 | definition; properties in `DriverInstaller.InstallDrivers` and `DriverInstaller.LinuxBatchExample` |
| DriverInstaller.RunCmdOutcome | drivermanager/client/driverInstaller.py:62-73 | success iff the command exited with 0; code and outputs are copied; a timeout gives code -1 and reason `timeout`; any other error gives code -2 and reason `exception` |
| DriverInstaller.WindowsCommands | drivermanager/client/driverInstaller.py:76-96 | each Windows extension runs exactly one command and returns its result: pnputil for `.inf` when it exists, dism otherwise; `msiexec /i p /qn` plus the arguments for `.msi`; the bare file for `.exe` |
| DriverInstaller.DefaultPnputilPath | drivermanager/client/driverInstaller.py:81 | without `SystemRoot`, pnputil is looked for at `C:\Windows\System32\pnputil.exe` |
| DriverInstaller.ExeIgnoresArguments | drivermanager/client/driverInstaller.py:92-96 | the `.exe` outcome does not depend on the caller's arguments |
| DriverInstaller.DebRetriesOnce | drivermanager/client/driverInstaller.py:104-112 | dpkg runs first; the apt fix runs iff dpkg failed; dpkg is retried iff the fix then succeeded; at most three commands run; the result is that of the last dpkg run |
| DriverInstaller.DebSucceedsAfterFix | drivermanager/client/driverInstaller.py:104-112 | whatever the commands print: if dpkg fails, the fix succeeds and the retry succeeds, the outcome is the retry's result, which is a success |
| DriverInstaller.RpmAndRunCommands | drivermanager/client/driverInstaller.py:113-122 | `.rpm` runs `sudo rpm -Uvh p`; `.run` runs `sudo bash p` plus the arguments whatever `chmod` did; each returns that command's result |
| DriverInstaller.FindInstallerScript | drivermanager/client/driverInstaller.py:135-142 | the scan returns the first of `install.sh`, `setup.sh`, `install` that is present, or none |
| DriverInstaller.FirstPresentIsFirst | drivermanager/client/driverInstaller.py:135-142 | the script found is present and every earlier one is missing |
| DriverInstaller.FirstPresentNone | drivermanager/client/driverInstaller.py:135-143 | no script is found iff every one is missing |
| DriverInstaller.ScanStopsAtFirst | drivermanager/client/driverInstaller.py:135-142 | if every name before position `i` is missing and name `i` is present, the scan stops at `i` |
| DriverInstaller.ArchiveOutcome | drivermanager/client/driverInstaller.py:123-133 | extraction into `/tmp/driver_install_<stem>` runs first; a failed extraction is returned unchanged |
| DriverInstaller.ArchiveExtractedOnly | drivermanager/client/driverInstaller.py:131-143 | after a successful extraction with none of the scripts present, the result is a success with reason `extracted_only` and nothing else runs |
| DriverInstaller.ArchiveRunsFirstScript | drivermanager/client/driverInstaller.py:123-143 | after a successful extraction, the first script present is run with `sudo bash` plus the arguments, and its result is returned |
| DriverInstaller.SetupOnlyArchive | drivermanager/client/driverInstaller.py:123-143 | whatever tar prints: an archive holding only `setup.sh` is extracted, then `setup.sh` is run with sudo; the outcome is the script's result, a success iff it exited with 0 |
| DriverInstaller.DottedArchiveSuffixRaises | drivermanager/client/driverInstaller.py:123-145 | `.tar` and `.gz` miss the archive branch and raise the `NameError`, running nothing |
| DriverInstaller.UnknownExtensionRaises | drivermanager/client/driverInstaller.py:76-145 | a helper raises the `NameError` and runs nothing iff `ext` is none of the values its branches test |
| DriverInstaller.MissingFileRefused | drivermanager/client/driverInstaller.py:153-154 | a path that does not exist gives `success = false`, reason `file_not_found`, and no command runs |
| DriverInstaller.PlatformDispatch | drivermanager/client/driverInstaller.py:156-170 | for an existing file, a platform starting with `win` goes to the Windows helper, then one starting with `linux` to the Linux helper, and anything else is refused with `Unsupported platform: <system>`; the table never refuses |
| DriverInstaller.PairNeverSelectsABranch | drivermanager/client/driverInstaller.py:157-168 | the `(root, ext)` pair passed as `ext` selects no branch of either helper, which raises the `NameError` |
| DriverInstaller.InstallDriverNeverRunsACommand | drivermanager/client/driverInstaller.py:148-170 | as written, `install_driver` runs no command; it raises the `NameError` iff the file exists and the platform is Windows or Linux |
| DriverInstaller.AsDictRoundTrip | drivermanager/client/driverInstaller.py:52-59 | `as_dict` has exactly five keys and can be read back into the same result; the exception record cannot be read back |
| DriverInstaller.InstallDrivers | drivermanager/client/driverInstaller.py:174-189 | every listed path gets an entry and no other key appears; each entry is `as_dict` of the outcome, or the exception record if `install_driver` raised; when a path repeats, its last occurrence wins |
| DriverInstaller.LinuxBatchExample | drivermanager/client/driverInstaller.py:174-189 | on Linux, existing `a.msi` and `b.deb` both get the exception record for the `NameError` |
| Master.HandshakeEffect | drivermanager/master/webServer.py:40-44 | definition; properties in `Master.OnlyObjectsDeclare`, `Master.HandshakeExamples` and `Master.WebServer.HandleHandshake` |
| Master.ExitFrom | drivermanager/master/webServer.py:29-39 | definition; properties in `Master.NonJsonEndsHandler`, `Master.StreamEndsOnlyWhenAllSurvive` and `Master.WebServer.Handle` |
| Master.OsTargeted | drivermanager/master/webServer.py:17 | definition; properties in `Master.WebServer.Broadcast` and `Client.HandshakeDeclaresOs` |
| Master.OnlyObjectsDeclare | drivermanager/master/webServer.py:40-44 | a message declares an OS iff it is an object with an `os` key, and it declares that key's value; an object never raises |
| Master.HandshakeExamples | drivermanager/master/webServer.py:40-44 | `{"os": "linux"}` declares `linux`; an object without `os` declares nothing; the string `"macos"` raises because it contains `os` |
| Master.NonJsonEndsHandler | drivermanager/master/webServer.py:29-39 | the first message that is not JSON ends the handler, and later messages are never read |
| Master.StreamEndsOnlyWhenAllSurvive | drivermanager/master/webServer.py:29-39 | the handler reaches the end of the stream iff every message is JSON and none raises in the handshake |
| Master.WebServer.constructor | drivermanager/master/webServer.py:6-10 | a new server has no connected clients and no OS entries |
| Master.WebServer.Broadcast | drivermanager/master/webServer.py:13-22 | the count is the number of connected clients whose OS is in `targetOs`; each of them gets the message exactly once and no one else gets anything; the registry is unchanged |
| Master.WebServer.Register | drivermanager/master/webServer.py:25-27 | entering `handle` adds the connection and changes nothing else |
| Master.WebServer.HandleHandshake | drivermanager/master/webServer.py:40-44 | an `os` key sets or overwrites the client's entry (last wins); any other message leaves the entries unchanged; `ok` is false iff the test raised |
| Master.WebServer.Unregister | drivermanager/master/webServer.py:37-39 | the connection leaves the connected set and its OS entry is dropped if there was one |
| Master.WebServer.Handle | drivermanager/master/webServer.py:25-39 | on every exit (end of stream, non-JSON message, handshake error) the connection is unregistered and its OS entry dropped; the exit is the one `ExitFrom` predicts |
| Client.DirectivePath | drivermanager/client/clientAgent.py:65-72 | definition; properties in `Client.DirectiveRoundTrip` |
| Client.NextDelay | drivermanager/client/clientAgent.py:123 | definition; properties in `Client.FailuresGrowDelay` and `Client.DelayBounded` |
| Client.AfterRound | drivermanager/client/clientAgent.py:111-123 | definition; properties in `Client.ClientAgent.RunRound`, `Client.AfterRoundsBackoff`, `Client.AfterRoundsRequests`, `Client.AfterRoundsConnections` and `Client.AfterRoundsHandshakes` |
| Client.HandshakeMessage | drivermanager/client/clientAgent.py:47 | definition; properties in `Client.HandshakeDeclaresOs`, `Client.DirectiveRoundTrip` and `Client.ClientAgent.Connect` |
| Client.HandshakeDeclaresOs | drivermanager/client/clientAgent.py:47 | the client's handshake makes the master record the client's OS; the master then targets the client iff its OS is in the target set, and for a table target iff the extension matches that OS |
| Client.DirectiveRoundTrip | drivermanager/client/clientAgent.py:65-76 | a path is accepted only as the non-empty string under `file` of an object; `{"file": p}` yields `p` when it is non-empty and nothing when it is empty; a handshake yields nothing |
| Client.DirectivePathsAppend | drivermanager/client/clientAgent.py:92-101 | the requests from two streams in a row are those of each, in order |
| Client.NonJsonSkipped | drivermanager/client/clientAgent.py:94-99 | a message that is not JSON contributes nothing, and the loop goes on with the next one |
| Client.DirectivePathsShape | drivermanager/client/clientAgent.py:92-101 | each message gives at most one request, and every requested path is non-empty |
| Client.SleepAt | drivermanager/client/clientAgent.py:109-123 | sleep `k` is the delay reached after `k` rounds, or the initial delay if round `k` connected |
| Client.DelayBounded | drivermanager/client/clientAgent.py:121-123 | starting within [5.0, 60.0], the delay and every sleep stay within [5.0, 60.0] |
| Client.ResetOnConnect | drivermanager/client/clientAgent.py:112-123 | a round that connects sleeps 5.0 whatever the delay had grown to, and leaves 7.5 |
| Client.FailuresGrowDelay | drivermanager/client/clientAgent.py:121-123 | under consecutive failures, the delay is multiplied by 1.5 each round, capped at 60.0 |
| Client.FailureSleeps | drivermanager/client/clientAgent.py:109-123 | from 5.0, sleep `k` under consecutive failures is `min(5.0 * 1.5^k, 60.0)` |
| Client.FailureSleepsExample | drivermanager/client/clientAgent.py:109-123 | from 5.0 the first eight sleeps are 5.0, 7.5, 11.25, 16.875, 25.3125, 37.96875, 56.953125, 60.0 |
| Client.HandshakeOncePerConnection | drivermanager/client/clientAgent.py:41-54 | every message the loop sends is the handshake, on a connection the loop opened; no connection carries two of them, and there are no more of them than connects |
| Client.AfterRoundsBackoff | drivermanager/client/clientAgent.py:109-123 | after any number of rounds, the sleeps are the backoff schedule of the connect outcomes, and so is the final delay |
| Client.AfterRoundsRequests | drivermanager/client/clientAgent.py:109-116 | the install requests are those of the connected rounds' streams, in order |
| Client.AfterRoundsConnections | drivermanager/client/clientAgent.py:109-116 | one connection is opened per round that connects |
| Client.AfterRoundsHandshakes | drivermanager/client/clientAgent.py:109-116 | the messages sent are exactly the delivered handshakes, each on the connection its round opened |
| Client.ClientAgent.constructor | drivermanager/client/clientAgent.py:18-28 | a new agent has delay 5.0, is not running, has no connection, its OS is the lower-cased platform name, and its uri is `ws://host:port` |
| Client.ClientAgent.Send | drivermanager/client/clientAgent.py:81-90 | without a connection, `send` returns false and sends nothing; otherwise it reports whether the transport took the message, and only then is the message sent |
| Client.ClientAgent.Connect | drivermanager/client/clientAgent.py:41-54 | success opens a new connection, sets `running`, and makes the handshake the first message on it; failure leaves no connection, `running` false, nothing sent, and returns false |
| Client.ClientAgent.HandleMessage | drivermanager/client/clientAgent.py:56-78 | a valid directive gives exactly one install request for its path; any other payload gives none |
| Client.ClientAgent.ReceiveLoop | drivermanager/client/clientAgent.py:92-107 | every directive in the stream becomes a request, in order, and non-JSON messages are skipped; an abnormal close or any other error clears `running`; a clean close leaves it as it was |
| Client.ClientAgent.RunRound | drivermanager/client/clientAgent.py:111-123 | one iteration: connect; on success reset the delay and run the receive loop; sleep the current delay; then set the delay to `min(delay * 1.5, 60.0)` |
| Client.ClientAgent.Run | drivermanager/client/clientAgent.py:109-123 | over any number of rounds, the sleeps follow the backoff schedule, the requests are those of the connected rounds, and the only messages sent are the rounds' handshakes |

## Left out

- Transport and concurrency: websockets, asyncio tasks, `gather` and `sleep` are left out. The model sends one message at a time, in order, and records each sleep as a delay.
- Send errors in `broadcast` are left out. In the code, a failed send makes `gather` raise out of `broadcast`.
- Master.WebServer.Broadcast: it requires every connected client to have a hashable OS entry. The model does not cover the `KeyError` or `TypeError` the lookup raises otherwise.
- The master's `start` and `terminate` are left out: they only start and stop the server.
- Connection identity: a connection and its `client_os` key are the same `Handle` in the model.
- JSON text: `json.loads` and `json.dumps` are not modelled. JSON numbers are integers, and duplicate object keys do not arise.
- TLS setup in the client is left out. It is dead code, because the scheme is always `ws`.
- Logging everywhere is left out.
- Client.ClientAgent.Run: it covers a finite number of iterations, not `while True`. Delays are exact reals, so IEEE rounding is not modelled.
- Client.ClientAgent.HandleMessage: it records the path it would hand to `install_driver`, but does not run the installer model. The client ignores the outcome anyway.
- Strings.Lower: upper-case letters are lowered for ASCII only.
- FileManager.GetExtension: there is no `os.path` normalisation, and the host chooses which separators apply.
- `target_os` in fileManager.py is left out: it calls itself and never returns.
- `Path` semantics in the installer are simplified:
  - `str(Path(p))` is taken to be `p`;
  - `Path.stem` follows the POSIX path's last component;
  - `ntpath.join` is reduced to the relative-component case.
- `chmod`, `rmtree` and `mkdir` are taken to succeed, and file modes are not modelled.
- The filesystem is not carried from one file of a batch to the next. Each file gets its own oracle.
- DriverInstaller.RunCmd: the `TimedOut` outcome carries its partial output as text. On POSIX, `TimeoutExpired.stdout` is bytes even with `text=True`, so `driverInstaller.py:70` then stores bytes in `stdout`; the model does not tell bytes from text.
- The command-line part of driverInstaller.py is left out.
- Out of the system's other files, masterApp.py, serverAgent.py, httpServer.py, winService.py and the entry points are not part of this model, and neither is the osManager module that serverAgent.py imports.

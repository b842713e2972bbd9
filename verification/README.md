# cloud-maker in Dafny

A model of the core of cloud-maker: the `make_provisioner` tool that builds a self-extracting
installer, the bundle's command dispatcher, and the two interpreter version gates.

**The installer.**
- An installer is one file: a shell stub followed directly by a gzip-compressed tar archive.
- The stub is a fixed template with three placeholders:
  - `CUT_LINE`: one more than the number of line breaks in the raw template;
  - `CLOUD_DIR`: the shell-quoted guest directory;
  - `RUNNER`: the shell-quoted `./` + entry script.
- The guest skips the first `CUT_LINE - 1` lines of the file (`tail -n +CUT_LINE`) and unpacks the rest.

**The archive.**
- It holds the payload directory `stage2_dir`, walked with `os.walk`.
- Member names are made POSIX-style by `_posixify`.
- Permissions depend on the host:
  - On Windows, every entry's mode is masked with 0o755. A file whose first four bytes start with `#!` or equal the ELF magic `\x7fELF` also gets 0o111.
  - On a POSIX host only files are added, with the modes the host reports.

The modules follow the program's parts:

| module | file | models |
|---|---|---|
| `Wrappers` | wrappers.dfy | `Option` and `Result` |
| `Text` | text.dfy | counting, UTF-8 encoding, `str(n)`, skipping lines of bytes |
| `ShellQuote` | shquote.dfy | `shquote`, with a reference unquoter for POSIX single quotes |
| `Config` | config.dfy | `_first_key`, `read_config`, `ini.items`, output-file choice |
| `Stub` | stub.dfy | `get_sfx_stub` and template substitution |
| `Paths` | paths.dfy | `os.path.split` (posixpath and ntpath), `posixpath.join`, `_posixify` |
| `Archive` | archive.dfy | `build_tar`, `_build_tar_win`, `_build_tar_posix`, the executable heuristic, seekable files |
| `Installer` | installer.dfy | `execute`, `create_provisioner` |
| `PyVersion` | py_version.dfy | `cloud_maker/py_version.py` |
| `PyVersionScript` | pyversion_script.dfy | `pyversion.py` |
| `Dispatch` | dispatch.dfy | `__main__.py` |

**Inputs that become parameters.**
- The host's file system is given as data:
  - the parsed configuration file, or `None` when it cannot be read;
  - for each directory, the steps `os.walk` yields;
  - for each file, its mode, its data and whether reading its first bytes succeeds.
- Tar and gzip encoding is a parameter `encode` from the member list to bytes.
- The stub template is a parameter: the resource `scripts/guest.sh` is not part of this model.
- Whether the host is Windows is a boolean.
- `~` and the environment are values.

## Model

| member | source | states |
|---|---|---|
| Config.FirstKey | make_provisioner/app.py:26-30 | the value of the earliest listed key the mapping has; the default when it has none |
| Config.Get | make_provisioner/app.py:97-98 | `conf.get(key, default)` agrees with the first-key lookup on the one key |
| Config.WithEnvironmentDefaults | make_provisioner/app.py:79-83 | HOME and USER are added to the default section only when absent: HOME from `~`, USER from the first of USER, USERNAME, LOGNAME in the environment, else empty; every other option and section is unchanged |
| Config.Items | make_provisioner/app.py:88 | an unknown system (other than the default section's name) fails with NoSection naming it; otherwise the section's options override the defaults, key by key, and the keys are the union |
| Config.ReadConfig | make_provisioner/app.py:69-88 | a read configuration always has HOME and USER |
| Config.ReadConfigHome | make_provisioner/app.py:80-88 | HOME comes from the system's section, else the default section, else `~` |
| Config.ReadConfigUser | make_provisioner/app.py:82-88 | USER comes from the section, else the default section, else USER, USERNAME, LOGNAME in that order, else empty |
| Config.OutputPath | make_provisioner/app.py:60-65 | `--output` when given, else the section's `output_file`, else `provisioner.sh` |
| ShellQuote.ShQuote | make_provisioner/app.py:32-33 | `shquote`: the pieces between quotes, each wrapped in quotes, joined by `\'`; ShQuoteShape, ShQuoteRoundTrip and ShQuoteInjective state that a POSIX shell reads the word back as the original string |
| ShellQuote.SplitOn | make_provisioner/app.py:33 | `s.split("'")` has one more piece than `s` has quotes, and no piece holds a quote |
| ShellQuote.Join | make_provisioner/app.py:33 | `"\\'".join(...)`; JoinSplit states that joining split pieces with their separator gives the string back |
| ShellQuote.WrapAll | make_provisioner/app.py:33 | the generator `"'" + p + "'"`: as many quoted pieces as pieces |
| ShellQuote.WrapAllPieces | make_provisioner/app.py:33 | each piece appears wrapped in quotes at its own position |
| ShellQuote.JoinSplit | make_provisioner/app.py:33 | joining the pieces of a split with the separator gives the string back |
| ShellQuote.ShQuoteShape | make_provisioner/app.py:32-33 | the result is one single-quoted word in which every `'` is spelt `'\''` |
| ShellQuote.ShQuoteRoundTrip | make_provisioner/app.py:32-33 | a POSIX shell reading the quoted word gets back exactly the original string |
| ShellQuote.ShQuoteInjective | make_provisioner/app.py:32-33 | different strings quote differently |
| ShellQuote.ShQuoteQuoteFree | make_provisioner/app.py:32-33 | a string without quotes is just wrapped in a pair of them |
| ShellQuote.ShQuoteExample | make_provisioner/app.py:32-33 | `it's` is quoted as `'it'\''s'` |
| ShellQuote.ShQuoteNewlines | make_provisioner/app.py:32-33 | quoting adds no line breaks |
| Text.Count | make_provisioner/app.py:96 | `txt.count("\n")` is at most the length, and zero exactly when there is no line break |
| Text.Utf8 | make_provisioner/app.py:177 | `.encode('utf-8')`, character by character, never shorter than the text; Utf8Append, Utf8LineFeeds and Utf8WholeLines state how it treats concatenation and line breaks |
| Text.Utf8LineFeeds | make_provisioner/app.py:177 | the UTF-8 encoding of the stub holds one byte 0x0A per line break and no other |
| Text.Decimal | make_provisioner/app.py:96 | the numeral substituted for CUT_LINE is a non-empty string of digits without a leading zero or a line break |
| Text.DecimalRoundTrip | make_provisioner/app.py:96 | the numeral reads back as the number |
| Text.DropLinesAfterPrefix | make_provisioner/app.py:174-185 | skipping as many lines as a whole-line prefix has lands exactly after that prefix |
| Text.Utf8WholeLines | make_provisioner/app.py:177 | skipping the line breaks of a whole-line text, once encoded, lands on what follows it |
| Stub.Substitute | make_provisioner/app.py:101 | substitution succeeds exactly when every placeholder has a value; a failure names a placeholder of the template that has none |
| Stub.SubstituteKeepsLineCount | make_provisioner/app.py:96-101 | with single-line values, the rendered text has as many line breaks as the raw template |
| Stub.SubstituteKeepsFinalNewline | make_provisioner/app.py:101 | a template ending in a line break renders to text ending in one |
| Stub.Placeholders | make_provisioner/app.py:96-99 | the substitution map has exactly CUT_LINE, CLOUD_DIR and RUNNER, and is single-line when its values are |
| Stub.StubVars | make_provisioner/app.py:95-99 | the substitution dictionary; StubCutLineValue, StubCloudDirWord, StubRunnerWord and StubVarsSingleLine state each value |
| Stub.StubCutLineValue | make_provisioner/app.py:96 | CUT_LINE is the numeral of one more than the raw template's line breaks |
| Stub.StubCloudDirWord | make_provisioner/app.py:97 | CLOUD_DIR unquotes to `guest_stage2_dir`, default `/var/tmp/cloud-maker` |
| Stub.StubRunnerWord | make_provisioner/app.py:98 | RUNNER unquotes to `./` + `stage2_script`, default `main.sh` |
| Stub.StubVarsSingleLine | make_provisioner/app.py:95-99 | single-line configured values give single-line substitutions |
| Stub.SfxStub | make_provisioner/app.py:90-101 | rendering the stub succeeds exactly when the template uses no placeholder besides the three |
| Stub.StubEndsWithLineFeed | make_provisioner/app.py:90-101 | a stub template made of whole lines renders to whole lines |
| Stub.StubCutLine | make_provisioner/app.py:90-101 | with single-line configured values the rendered stub has exactly CUT_LINE - 1 line breaks |
| Stub.MultiLineValueShiftsCutLine | make_provisioner/app.py:96-97 | without that condition, for a template that opens with the CLOUD_DIR placeholder followed by any literal text, each line break in `guest_stage2_dir` adds a line to the stub that CUT_LINE does not count |
| Paths.Split | make_provisioner/app.py:120 | `os.path.split`: the tail after the last separator and the head before it; SplitParts states the decomposition of a relative path |
| Paths.SplitParts | make_provisioner/app.py:120 | `os.path.split` of a relative path: the tail has no separator; either the head is empty and the tail is the path, or the path is head, a run of separators, tail, and the head is shorter, relative and does not end in a separator |
| Paths.JoinStep | make_provisioner/app.py:145 | `posixpath.join` of two parts; JoinRelative and JoinStepNoParent state that joining a plain name onto a relative path stays relative and free of `..` |
| Paths.PosixJoin | make_provisioner/app.py:127 | `posixpath.join(*rseg)` as a fold of JoinStep; PosixJoinNoParent states that plain segments join into a path without `..` segments |
| Paths.Posixify | make_provisioner/app.py:115-127 | `_posixify`: the segments split off from the end, reversed and joined; PosixifyCollapses equates it with the separator-run reference |
| Paths.PosixifyStep | make_provisioner/app.py:119-127 | one turn of the `_posixify` loop joins the tail behind the head's result |
| Paths.PosixifyCollapses | make_provisioner/app.py:115-127 | `_posixify` equals the reference that turns each maximal run of host separators into one `/` |
| Paths.PosixifySlashesOnly | make_provisioner/app.py:115-127 | an archive name holds no host separator other than `/` |
| Paths.PosixifySegments | make_provisioner/app.py:115-127 | for a path without doubled separators, `_posixify` rewrites each separator as `/` and keeps everything else in place |
| Paths.CollapseFirst | make_provisioner/app.py:115-127 | collapsing separator runs keeps a first character that is not a separator |
| Paths.PosixifyRelative | make_provisioner/app.py:115-127 | a relative path posixifies to the empty name or to a name starting with the path's own first character, never `/` |
| Paths.JoinRelative | make_provisioner/app.py:145 | `posixpath.join` of a relative directory and a plain name never starts at the root |
| Paths.PosixifyDot | make_provisioner/app.py:140 | the payload root's own relative path `.` stays `.` |
| Archive.LooksExecutable | make_provisioner/app.py:157 | first bytes starting with `#!` or equal to `\x7fELF`; HeuristicExamples and ExecBitsExactly state its effect on the mode |
| Archive.DirMode | make_provisioner/app.py:146 | a directory's mode keeps exactly the host's bits inside 0o755 |
| Archive.HeuristicMode | make_provisioner/app.py:152-158 | a file's mode stays within 0o755, keeps the host's read/write bits, gains 0o111 when its first bytes look executable, and is the plain mask otherwise |
| Archive.HeuristicModeAddsNothingElse | make_provisioner/app.py:152-158 | the only bits the heuristic adds are execute bits, and only for a file that looks executable |
| Archive.ExecBitsExactly | make_provisioner/app.py:152-158 | a file is executable for everyone exactly when the host said so or its readable first bytes show a shebang or the ELF magic |
| Archive.HeuristicExamples | make_provisioner/app.py:152-158 | with host mode 0o666: a shebang script and an ELF binary get 0o755; a text file, a one-byte `#` file and an unreadable probe get 0o644 |
| Archive.Read | make_provisioner/app.py:156 | `read(n)` returns at most `n` bytes from the position and moves past them |
| Archive.Write | make_provisioner/app.py:177 | `write(b)` puts `b` at the position and moves past it, keeps every byte before and after the written range, pads a gap past the end with zero bytes, and extends the file only as far as the new position |
| Archive.Seek | make_provisioner/app.py:162 | `seek(zero, 0)` keeps the data and moves the position; RewindRestoresContent and ProbeWithoutRewindFails state why the builder needs it |
| Archive.ReadToEnd | make_provisioner/app.py:185 | `shutil.copyfileobj` copies what follows the position: the data before the position followed by the copy is the whole file |
| Archive.ReadExactly | make_provisioner/app.py:164 | copying a member's data succeeds exactly when that many bytes remain from the position |
| Archive.RewindRestoresContent | make_provisioner/app.py:153-164 | after the probe and `seek(zero)` the whole file is copied |
| Archive.ProbeWithoutRewindFails | make_provisioner/app.py:162-164 | without the rewind a non-empty file would be copied short |
| Archive.MapAll | make_provisioner/app.py:141-164 | adding entries in turn succeeds exactly when every entry does, keeps their order, and otherwise reports the first failing entry's error |
| Archive.Probe | make_provisioner/app.py:153-156 | `magic.read(4)` from the start of the file: present exactly when the read succeeds, and then the file's first four bytes, or all of a shorter file |
| Archive.HostOf | make_provisioner/app.py:108 | `platform.system() == 'Windows'` selects the Windows path module exactly on Windows |
| Archive.WinDirMember | make_provisioner/app.py:141-147 | a directory is added exactly when it can be stat'ed, named after its posixified container, with the masked mode |
| Archive.WinFileMember | make_provisioner/app.py:149-164 | a file is added exactly when it can be stat'ed and opened, with its whole data and the heuristic mode |
| Archive.PosixFileMember | make_provisioner/app.py:170-172 | a file is added exactly when it can be stat'ed and opened, with the host's mode and its data |
| Archive.WinStepMembers | make_provisioner/app.py:139-164 | one Windows walk step: its directories' members, then its files'; WinStepOrder, WinStepFiles and WinStepModesBounded state them |
| Archive.PosixStepMembers | make_provisioner/app.py:166-172 | one POSIX walk step: its files only; PosixStepFiles states them |
| Archive.BuildTar | make_provisioner/app.py:103-113 | the whole walk, step by step, stopping at the first failure; BuildTarSucceeds, WinModesBounded and MemberNamesRelative state what it builds |
| Archive.StepSucceeds | make_provisioner/app.py:139-172 | one walk step succeeds exactly when its entries are accessible, with one member per directory (Windows) and file |
| Archive.BuildTarSucceeds | make_provisioner/app.py:103-113 | the archive builds exactly when every entry of the walk is accessible, and then has one member per directory (Windows only) and file |
| Archive.EntryNameRelative | make_provisioner/app.py:140-151 | an entry listed by the walk is named below its container, relative to the payload root |
| Archive.StepNamesRelative | make_provisioner/app.py:139-172 | every member one walk step yields is named relative to the payload root |
| Paths.SegmentsReversedPlain | make_provisioner/app.py:119-125 | a relative path without `..` segments splits into segments that hold no separator and are not `..` |
| Paths.JoinStepNoParent | make_provisioner/app.py:127 | joining a segment other than `..` onto a path without `..` segments adds none |
| Paths.PosixifyNoParent | make_provisioner/app.py:115-127 | `_posixify` of a path without `..` segments has none |
| Archive.MemberNamesRelative | make_provisioner/app.py:103-172 | when the walk lists plain names below the root, every archive member's name is non-empty, does not start with `/`, and has no `..` segment |
| Archive.WinStepModesBounded | make_provisioner/app.py:139-164 | on Windows no member of a walk step has a mode bit outside 0o755 |
| Archive.WinModesBounded | make_provisioner/app.py:129-164 | on Windows no member of the archive has a mode bit outside 0o755 |
| Archive.WinStepOrder | make_provisioner/app.py:139-164 | on Windows a step yields its directories' members, then its files' members, each in walk order |
| Archive.WinStepFiles | make_provisioner/app.py:149-164 | on Windows each file's member has the posixified name, the file's whole data, and execute bits exactly as the heuristic decides |
| Archive.PosixStepFiles | make_provisioner/app.py:166-172 | on a POSIX host a step yields exactly its files, in order, with their host modes and data |
| Installer.WriteAtEnd | make_provisioner/app.py:177-185 | writing at the end of a file appends |
| Installer.Payload | make_provisioner/app.py:180-185 | the bytes copied from the rewound temporary file are exactly the encoded archive, and exist exactly when the archive builds |
| Installer.CreateProvisioner | make_provisioner/app.py:174-185 | the output file is empty after a template failure, holds only the stub after an archive failure, and holds the stub followed by the archive otherwise |
| Installer.Stage2Dir | make_provisioner/app.py:66 | `conf['stage2_dir']` or a missing-key error |
| Installer.Execute | make_provisioner/app.py:55-67 | an unreadable configuration, an unknown system or a missing `stage2_dir` ends the run before any file is written; otherwise the file written is the chosen output path |
| Installer.ExecuteLayout | make_provisioner/app.py:55-67 | a run without error has written the stub followed by the whole encoded archive |
| Installer.ExecuteFailureLeavesPrefix | make_provisioner/app.py:174-185 | a run that wrote a file and failed leaves an empty file (template) or the stub alone (archive) |
| Installer.CutLineSkipsStub | make_provisioner/app.py:96 | skipping CUT_LINE - 1 lines of the encoded stub and anything after it lands on what follows the stub |
| Installer.CutLineFindsArchive | make_provisioner/app.py:174-185 | `tail -n +CUT_LINE` of a complete installer, whatever its path, is exactly the encoded archive, when the template is made of whole lines and the configured values are single-line |
| PyVersion.CheckEx | cloud_maker/py_version.py:8-17 | no error exactly for 2.7+ and 3.2+; otherwise the error names the version found |
| PyVersion.Message | cloud_maker/py_version.py:12-17 | the text of each version error; CheckEx states which version each names |
| PyVersion.Check | cloud_maker/py_version.py:19-25 | a supported version passes silently; any other exits with status 2 after two lines: the arguments tuple of the error `check_ex` raised, naming the version found, then the requirement |
| PyVersion.OtherMajorsRefused | cloud_maker/py_version.py:16-17 | any major other than 2 and 3 is refused, whatever the minor |
| PyVersionScript.Perr | pyversion.py:7-11 | printing a complaint raises the fail flag and appends the line |
| PyVersionScript.Complaint | pyversion.py:15-18 | there is a complaint exactly when the version is not 3.2 or a later 3.x |
| PyVersionScript.Check | pyversion.py:13-21 | `check` returns exactly when the flag was down and the version is 3.2+; otherwise it exits with 2 after the summary line |
| PyVersionScript.Script | pyversion.py:23-25 | `check()` then the success line; ScriptPassesExactly states exactly when it passes and what it prints |
| PyVersionScript.ScriptPassesExactly | pyversion.py:13-25 | the script passes exactly on 3.2+, then prints the success line; otherwise its standard error is the complaint and the summary |
| PyVersionScript.MinorIgnoredForOtherMajors | pyversion.py:15-18 | for a major other than 3 the minor makes no difference |
| PyVersionScript.RaisedFlagExits | pyversion.py:19-21 | a flag raised earlier makes `check` exit even on a good version |
| PyVersionScript.StricterThanPackageGate | pyversion.py:13-21 | what this gate accepts the package's gate accepts; 2.7 passes the package's gate and fails this one |
| Dispatch.Resolve | __main__.py:13-20 | a command names itself, an alias names its target, and anything else names nothing |
| Dispatch.ResolveNamesCommand | __main__.py:13-20 | when every alias targets a command, every resolved name is a command |
| Dispatch.BundleTables | __main__.py:5-11 | `provision` stands for `make_provisioner`; other names besides the two commands resolve to nothing |
| Dispatch.SubstringAt | __main__.py:27 | `'help' in wanted` holds wherever `help` occurs |
| Dispatch.LexLessIrreflexive | __main__.py:41 | no name sorts before itself |
| Dispatch.LexLessTransitive | __main__.py:41 | string order is transitive |
| Dispatch.LexLessTotal | __main__.py:41 | of two different names one sorts first |
| Dispatch.Least | __main__.py:41 | the least name of a non-empty set is in it and sorts before every other |
| Dispatch.SortedNames | __main__.py:41 | `sorted(keys)` is strictly increasing and has exactly the set's elements |
| Dispatch.Header | __main__.py:29-33 | the six usage lines naming the program; ShowUsage states that the usage carries them |
| Dispatch.InvertAliases | __main__.py:37-39 | the inversion fails exactly when some alias targets no command; otherwise each command maps to exactly the aliases naming it |
| Dispatch.Entries | __main__.py:41-44 | one listing entry per command, in order, with its explanation and aliases |
| Dispatch.ListCommands | __main__.py:41-44 | the listing holds every command once, in sorted order, with its explanation and aliases |
| Dispatch.Complaint | __main__.py:27-28 | a name is complained about exactly when it neither is `-h` nor contains `help`, with the line naming it followed by an empty line |
| Dispatch.ShowUsage | __main__.py:26-45 | the usage is the complaint if any on standard error, then the header naming the program and the listing of every command with its aliases; an alias without a command crashes the inversion |
| Dispatch.Dispatch | __main__.py:13-45 | no argument crashes; a known name runs its module with the name removed from the arguments; an alias without a command crashes; otherwise the usage is printed, complaining exactly when the name does not ask for help |
| Dispatch.HelpIsNotAComplaint | __main__.py:27-28 | any name containing `help`, and `-h`, gets the usage without a complaint |

## Behaviour worth knowing

- **A template failure truncates the output file.** `get_sfx_stub` is called after the output file has been opened for writing (make_provisioner/app.py:175-177), so a template failure leaves an empty file behind.
- **The Windows heuristic masks the host's mode.** A file's mode is the host's reported mode masked with 0o755, plus 0o111 when its first bytes look executable (make_provisioner/app.py:152-158).
- **The POSIX builder adds only files and keeps their modes.**
  - It adds files only, never directory entries (make_provisioner/app.py:170-172).
  - It keeps the host's modes unmasked.
- **Optional options use `conf.get`.** `guest_stage2_dir` and `stage2_script` are read with `conf.get` (make_provisioner/app.py:97-98). An option that is present but empty is used as is.
- **An unknown alias target does not crash resolution.** An alias whose target is not a command resolves to that target (__main__.py:18). The module run is then left to `runpy`.
- **Multi-line values break CUT_LINE.** Nothing checks that the configured values are single-line. `Stub.MultiLineValueShiftsCutLine` shows how a line break in `guest_stage2_dir` moves the archive past `CUT_LINE`. `Installer.CutLineFindsArchive` assumes single-line values.

## Left out

- Tar and gzip encoding, compression level 9, and the `TarInfo` fields other than name, type, mode and data: the archive is the member list, and `encode` stands for the encoding.
- Symbolic links, special files and `os.walk`'s silent handling of unreadable directories: a walk is given as data. A missing payload directory is an empty walk.
- Drive letters and UNC prefixes in `ntpath.split`.
- Parsing of the ini file and the encoding it is read with: the configuration is the parser's result.
- Config.Items: returns the options without `%` interpolation; `ini.items(system)` (make_provisioner/app.py:88) expands `%(name)s` references, which is why HOME and USER are injected first (make_provisioner/app.py:85-87), and fails on a malformed reference.
- Config.WithEnvironmentDefaults: never fails, while `ini.set` (make_provisioner/app.py:81, 83) raises `ValueError` when the home directory or the user name holds a stray `%`.
- Argument parsing (`parse_args`, `--version`, `--config`): the parsed options are a parameter.
- The template engine (`.template`) and the resource loader (`.data`) are not part of this model. A template is its literal text with `{NAME}` placeholders.
- Failures to open the output or temporary file, and write errors: I/O is assumed to succeed.
- `main`'s catch-all that prints the traceback and returns 2 (make_provisioner/app.py:187-192): the `Run` record carries the error instead.
- Hard links: for a file whose inode was already archived under another name, `tarfile.gettarinfo` (make_provisioner/app.py:151, and `tar.add` at make_provisioner/app.py:172) records a hard-link member of size 0 and copies no data. The model treats every file as a regular file carrying its whole data.
- The message printed when probing a file's first bytes fails (make_provisioner/app.py:159-160): the probe only decides the mode.
- UTF-8 encoding errors for lone surrogates: Dafny's `char` is a Unicode scalar value.
- `fedora2ova`, `setup.py` and the package `__init__` files: they are outside the core.
- PyVersion.Check: the first standard-error line is Python 3's rendering `('…',)` of the exception's arguments. Python 2 renders it with a `u` prefix.
- Dispatch.Dispatch: the crash for an alias without a command does not record the complaint line printed before it.
- Dispatch.Dispatch: the order of aliases on one listing line follows set iteration and is left open: a listing entry holds the set.
- Dispatch.Dispatch: the exit status 0 and the printing of the usage lines are not modelled.
- Dispatch.Dispatch: `runpy.run_module` itself is not modelled: the outcome names the module and the argument vector it sees.

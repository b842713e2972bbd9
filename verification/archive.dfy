/**
  The payload archive (`build_tar`, `_build_tar_win`, `_build_tar_posix`,
  make_provisioner/app.py). The payload directory is given as the sequence
  of steps `os.walk` yields; the archive is the sequence of members added
  to it, in order. Tar and gzip encoding are not part of this model.

  On Windows the host cannot be relied on to report executable bits, so
  every member's mode is masked with 0o755 and a file whose first bytes are
  a shebang or the ELF magic gets 0o111 added. On a POSIX host only files are added,
  with the modes the host reports.
*/
module Archive {
  import opened Wrappers
  import opened Text
  import opened Paths

  /** Permission bits as `stat` reports them (`st_mode & 0o7777`). */
  type Mode = bv32

  const PermMask: Mode := 0x1ED   // 0o755
  const ExecBits: Mode := 0x49    // 0o111
  const ReadWriteBits: Mode := 0x1A4   // 0o644: the bits of 0o755 that are not execute bits

  /** `#!` */
  const Shebang: seq<byte> := [0x23, 0x21]
  /** The ELF identification bytes e_ident[EI_MAG0..EI_MAG3] of the System V ABI: `\x7fELF`. */
  const ElfMagic: seq<byte> := [0x7F, 0x45, 0x4C, 0x46]

  /** `m4.startswith(b'#!') or m4 == b'\x7fELF'` for the first (up to) four bytes `m4`. */
  predicate LooksExecutable(m4: seq<byte>)
  {
    (|m4| >= 2 && m4[..2] == Shebang) || m4 == ElfMagic
  }

  // ---------------------------------------------------------------------------
  // Permission policy

  /** The mode a directory gets on Windows: the host's bits masked with 0o755. */
  function DirMode(m: Mode): (r: Mode)
    ensures r & !PermMask == 0 && r <= PermMask
    ensures r & PermMask == m & PermMask
  {
    m & PermMask
  }

  /**
    The mode a file gets on Windows: the host's bits masked with 0o755, plus
    0o111 when the probe of its first bytes succeeded (`probe` is `Some`)
    and shows a shebang or the ELF magic.
  */
  function HeuristicMode(m: Mode, probe: Option<seq<byte>>): (r: Mode)
    ensures r & !PermMask == 0 && r <= PermMask
    ensures r & ReadWriteBits == m & ReadWriteBits
    ensures probe.Some? && LooksExecutable(probe.value) ==> r & ExecBits == ExecBits
    ensures !(probe.Some? && LooksExecutable(probe.value)) ==> r == DirMode(m)
  {
    var masked := m & PermMask;
    if probe.Some? && LooksExecutable(probe.value) then masked | ExecBits else masked
  }

  /** A file that does not look executable gets execute bits only where the host had them. */
  lemma HeuristicModeAddsNothingElse(m: Mode, probe: Option<seq<byte>>)
    ensures HeuristicMode(m, probe) & !(m & PermMask) != 0 ==>
              probe.Some? && LooksExecutable(probe.value)
    ensures HeuristicMode(m, probe) & !(m & PermMask) == (HeuristicMode(m, probe) & !(m & PermMask)) & ExecBits
  {
  }

  /**
    On a host that reports 0o666 for everything: a script with a shebang and
    an ELF binary come out 0o755, a text file 0o644, and a file whose first
    bytes could not be read 0o644 as well.
  */
  lemma HeuristicExamples()
    ensures HeuristicMode(0x1B6, Some([0x23, 0x21, 0x2F, 0x62])) == 0x1ED
    ensures HeuristicMode(0x1B6, Some(ElfMagic)) == 0x1ED
    ensures HeuristicMode(0x1B6, Some([0x69, 0x6D, 0x70, 0x6F])) == 0x1A4
    ensures HeuristicMode(0x1B6, Some([0x23])) == 0x1A4
    ensures HeuristicMode(0x1B6, None) == 0x1A4
  {
    var script: seq<byte> := [0x23, 0x21, 0x2F, 0x62];
    assert script[..2] == Shebang;
    assert LooksExecutable(script);
    var text: seq<byte> := [0x69, 0x6D, 0x70, 0x6F];
    assert text[..2] != Shebang by { assert text[0] != Shebang[0]; }
    assert !LooksExecutable(text);
  }

  // ---------------------------------------------------------------------------
  // Seekable files

  /** An open binary file: its contents and the current position. */
  datatype Stream = Stream(data: seq<byte>, pos: nat)

  function Min(a: nat, b: nat): nat { if a <= b then a else b }

  /** `f.read(n)`: at most `n` bytes from the position on; the position moves past them. */
  function Read(s: Stream, n: nat): (r: (Stream, seq<byte>))
    ensures r.0.data == s.data
    ensures s.pos <= |s.data| ==> r.1 == s.data[s.pos..Min(s.pos + n, |s.data|)]
    ensures s.pos > |s.data| ==> r.1 == []
    ensures r.0.pos == s.pos + |r.1|
  {
    var start := Min(s.pos, |s.data|);
    var chunk := s.data[start..Min(s.pos + n, |s.data|)];
    (Stream(s.data, s.pos + |chunk|), chunk)
  }

  /** `f.seek(p, 0)`. */
  function Seek(s: Stream, p: nat): Stream
  {
    Stream(s.data, p)
  }

  /**
    `f.write(b)`: overwrites from the position on (a position past the end
    first pads with zero bytes) and moves the position past the new bytes.
  */
  function Write(s: Stream, b: seq<byte>): (r: Stream)
    ensures r.pos == s.pos + |b|
    ensures |r.data| == if r.pos <= |s.data| then |s.data| else r.pos
    ensures r.data[s.pos..r.pos] == b
    ensures s.pos <= |s.data| ==> r.data[..s.pos] == s.data[..s.pos]
    ensures s.pos > |s.data| ==> r.data[..|s.data|] == s.data
                                 && forall i :: |s.data| <= i < s.pos ==> r.data[i] == 0
    ensures r.pos <= |s.data| ==> r.data[r.pos..] == s.data[r.pos..]
  {
    var before := if s.pos <= |s.data| then s.data[..s.pos] else s.data + seq(s.pos - |s.data|, _ => 0 as byte);
    var after := if s.pos + |b| < |s.data| then s.data[s.pos + |b|..] else [];
    assert |before| == s.pos;
    assert (before + b + after)[s.pos..s.pos + |b|] == b;
    Stream(before + b + after, s.pos + |b|)
  }

  /** Everything from the position to the end: what `shutil.copyfileobj` copies. */
  function ReadToEnd(s: Stream): (r: seq<byte>)
    ensures s.pos <= |s.data| ==> s.data[..s.pos] + r == s.data
    ensures s.pos >= |s.data| ==> r == []
  {
    s.data[Min(s.pos, |s.data|)..]
  }

  /** Exactly `n` bytes from the position on, as `tarfile` copies a member's data; `None` if fewer remain. */
  function ReadExactly(s: Stream, n: nat): (r: Option<seq<byte>>)
    ensures r.Some? <==> s.pos + n <= |s.data|
    ensures r.Some? ==> r.value == s.data[s.pos..s.pos + n]
  {
    if s.pos + n <= |s.data| then Some(s.data[s.pos..s.pos + n]) else None
  }

  /** Rewinding a file after any read makes its whole content available again. */
  lemma RewindRestoresContent(data: seq<byte>, n: nat)
    ensures var file := Stream(data, 0);
            ReadExactly(Seek(Read(file, n).0, file.pos), |data|) == Some(data)
  {
    assert data[0..|data|] == data;
  }

  /** Without the rewind, a file read for its magic would come up short. */
  lemma ProbeWithoutRewindFails(data: seq<byte>)
    requires |data| > 0
    ensures ReadExactly(Read(Stream(data, 0), 4).0, |data|).None?
  {
    var probed := Read(Stream(data, 0), 4);
    assert |probed.1| == Min(4, |data|) >= 1;
    assert probed.0 == Stream(data, |probed.1|);
  }

  // ---------------------------------------------------------------------------
  // Walk and members

  /** A directory as `os.walk` lists it; `mode` is `None` when it cannot be stat'ed. */
  datatype HostDir = HostDir(name: string, mode: Option<Mode>)

  /**
    A file as `os.walk` lists it: `mode` is `None` when it cannot be stat'ed,
    `data` is `None` when it cannot be opened, and `probeReadable` says
    whether reading its first bytes succeeds.
  */
  datatype HostFile = HostFile(name: string, mode: Option<Mode>, data: Option<seq<byte>>, probeReadable: bool)

  /**
    One step of `os.walk(rootdir)`: the container's path relative to the
    root (`os.path.relpath(container, rootdir)`), its sub-directories and
    its files.
  */
  datatype WalkStep = WalkStep(rel: string, dirs: seq<HostDir>, files: seq<HostFile>)

  /** Every relative container path in the walk is relative, as `relpath` makes it. */
  predicate ValidWalk(h: Host, steps: seq<WalkStep>)
  {
    forall i :: 0 <= i < |steps| ==> Relative(h, steps[i].rel)
  }

  datatype Kind = Directory | RegularFile

  /** An archive member: its name, type, permission bits and data. */
  datatype Member = Member(name: string, kind: Kind, mode: Mode, content: seq<byte>)

  datatype ArchiveError =
    | StatFailed(name: string)    // gettarinfo could not stat the entry
    | OpenFailed(name: string)    // the file could not be opened

  /** Applies `f` to each element in turn and stops at the first failure. */
  function MapAll<A, B, E>(f: A -> Result<B, E>, xs: seq<A>): (r: Result<seq<B>, E>)
    ensures r.Success? <==> forall i :: 0 <= i < |xs| ==> f(xs[i]).Success?
    ensures r.Success? ==> |r.value| == |xs| && forall i :: 0 <= i < |xs| ==> r.value[i] == f(xs[i]).value
    ensures r.Failure? ==>
              exists i :: 0 <= i < |xs| && f(xs[i]).Failure? && r.error == f(xs[i]).error
                          && forall j :: 0 <= j < i ==> f(xs[j]).Success?
  {
    if |xs| == 0 then Success([])
    else
      match f(xs[0])
      case Failure(e) => Failure(e)
      case Success(y) =>
        match MapAll(f, xs[1..])
        case Failure(e) =>
          assert forall i :: 1 <= i < |xs| ==> xs[i] == xs[1..][i - 1];
          Failure(e)
        case Success(ys) => Success([y] + ys)
  }

  /** The first (up to) four bytes of a file, when reading them succeeds. */
  function Probe(f: HostFile): (r: Option<seq<byte>>)
    requires f.data.Some?
    ensures r.Some? <==> f.probeReadable
    ensures r.Some? ==> |r.value| == Min(4, |f.data.value|) && r.value == f.data.value[..|r.value|]
  {
    if f.probeReadable then Some(Read(Stream(f.data.value, 0), 4).1) else None
  }

  /** `tar.gettarinfo` and `tar.addfile` for a directory on Windows. */
  function WinDirMember(tarDir: string, d: HostDir): (r: Result<Member, ArchiveError>)
    ensures r.Success? <==> d.mode.Some?
    ensures r.Success? ==> r.value == Member(JoinStep(tarDir, d.name), Directory, DirMode(d.mode.value), [])
  {
    var name := JoinStep(tarDir, d.name);
    match d.mode
    case None => Failure(StatFailed(name))
    case Some(m) => Success(Member(name, Directory, m & PermMask, []))
  }

  /**
    A file on Windows: stat it, open it, probe its first four bytes for the
    executable heuristic, rewind, and copy its data into the archive.
  */
  function WinFileMember(tarDir: string, f: HostFile): (r: Result<Member, ArchiveError>)
    ensures r.Success? <==> f.mode.Some? && f.data.Some?
    ensures r.Success? ==>
              && r.value.name == JoinStep(tarDir, f.name)
              && r.value.kind == RegularFile
              && r.value.content == f.data.value
              && r.value.mode == HeuristicMode(f.mode.value, Probe(f))
  {
    var name := JoinStep(tarDir, f.name);
    if f.mode.None? then Failure(StatFailed(name))
    else if f.data.None? then Failure(OpenFailed(name))
    else
      var magic := Stream(f.data.value, 0);
      var zero := magic.pos;
      var (probed, m4) := if f.probeReadable then Read(magic, 4) else (magic, []);
      var mode := HeuristicMode(f.mode.value, if f.probeReadable then Some(m4) else None);
      var rewound := Seek(probed, zero);
      assert ReadExactly(rewound, |f.data.value|).Some? by {
        RewindRestoresContent(f.data.value, 4);
      }
      var content := ReadExactly(rewound, |f.data.value|).value;
      Success(Member(name, RegularFile, mode, content))
  }

  /** The members one walk step contributes on Windows: its directories, then its files. */
  function WinStepMembers(s: WalkStep): (r: Result<seq<Member>, ArchiveError>)
    requires Relative(Windows, s.rel)
  {
    var tarDir := Posixify(Windows, s.rel);
    var ds :- MapAll(d => WinDirMember(tarDir, d), s.dirs);
    var fs :- MapAll(f => WinFileMember(tarDir, f), s.files);
    Success(ds + fs)
  }

  /** A file on a POSIX host: `tar.add` with the host's own permission bits. */
  function PosixFileMember(tarDir: string, f: HostFile): (r: Result<Member, ArchiveError>)
    ensures r.Success? <==> f.mode.Some? && f.data.Some?
    ensures r.Success? ==>
              r.value == Member(JoinStep(tarDir, f.name), RegularFile, f.mode.value, f.data.value)
  {
    var name := JoinStep(tarDir, f.name);
    if f.mode.None? then Failure(StatFailed(name))
    else if f.data.None? then Failure(OpenFailed(name))
    else Success(Member(name, RegularFile, f.mode.value, f.data.value))
  }

  /** The members one walk step contributes on a POSIX host: its files only. */
  function PosixStepMembers(s: WalkStep): (r: Result<seq<Member>, ArchiveError>)
    requires Relative(Posix, s.rel)
  {
    var tarDir := Posixify(Posix, s.rel);
    MapAll(f => PosixFileMember(tarDir, f), s.files)
  }

  /** The host the builder runs on. */
  function HostOf(windows: bool): (h: Host)
    ensures h == Windows <==> windows
  {
    if windows then Windows else Posix
  }

  /**
    `build_tar`: the members of the walk, step by step, with the Windows
    or the POSIX policy; the first member that cannot be added aborts the
    whole archive.
  */
  function BuildTar(windows: bool, steps: seq<WalkStep>): (r: Result<seq<Member>, ArchiveError>)
    requires ValidWalk(HostOf(windows), steps)
  {
    if |steps| == 0 then Success([])
    else
      var first :- if windows then WinStepMembers(steps[0]) else PosixStepMembers(steps[0]);
      var rest :- BuildTar(windows, steps[1..]);
      Success(first + rest)
  }

  // ---------------------------------------------------------------------------
  // Properties of the archive

  /** Every directory (Windows only) and file of a walk step can be stat'ed and opened. */
  predicate StepAccessible(windows: bool, s: WalkStep)
  {
    && (windows ==> forall j :: 0 <= j < |s.dirs| ==> s.dirs[j].mode.Some?)
    && forall j :: 0 <= j < |s.files| ==> s.files[j].mode.Some? && s.files[j].data.Some?
  }

  /** Every step of the walk is accessible. */
  predicate Accessible(windows: bool, steps: seq<WalkStep>)
  {
    forall i :: 0 <= i < |steps| ==> StepAccessible(windows, steps[i])
  }

  /** The number of members one walk step yields under each policy. */
  function StepCount(windows: bool, s: WalkStep): nat
  {
    (if windows then |s.dirs| else 0) + |s.files|
  }

  /** The number of members the walk yields under each policy. */
  function MemberCount(windows: bool, steps: seq<WalkStep>): nat
  {
    if |steps| == 0 then 0 else StepCount(windows, steps[0]) + MemberCount(windows, steps[1..])
  }

  /** The members of one step: present exactly when the step is accessible, one per entry. */
  lemma StepSucceeds(windows: bool, s: WalkStep)
    requires Relative(HostOf(windows), s.rel)
    ensures var r := if windows then WinStepMembers(s) else PosixStepMembers(s);
            && (r.Success? <==> StepAccessible(windows, s))
            && (r.Success? ==> |r.value| == StepCount(windows, s))
  {
    if windows {
      var tarDir := Posixify(Windows, s.rel);
      var ds := MapAll(d => WinDirMember(tarDir, d), s.dirs);
      var fs := MapAll(f => WinFileMember(tarDir, f), s.files);
      assert WinStepMembers(s).Success? <==> ds.Success? && fs.Success?;
    }
  }

  /**
    Building succeeds exactly when every entry is accessible, and then the
    archive has one member per listed directory (Windows only) and file.
  */
  lemma {:induction false} BuildTarSucceeds(windows: bool, steps: seq<WalkStep>)
    requires ValidWalk(HostOf(windows), steps)
    ensures BuildTar(windows, steps).Success? <==> Accessible(windows, steps)
    ensures BuildTar(windows, steps).Success? ==> |BuildTar(windows, steps).value| == MemberCount(windows, steps)
  {
    if |steps| > 0 {
      assert ValidWalk(HostOf(windows), steps[1..]) by {
        assert forall i :: 1 <= i < |steps| ==> steps[i] == steps[1..][i - 1];
      }
      BuildTarSucceeds(windows, steps[1..]);
      StepSucceeds(windows, steps[0]);
      assert Accessible(windows, steps) <==> StepAccessible(windows, steps[0]) && Accessible(windows, steps[1..]) by {
        assert forall i :: 1 <= i < |steps| ==> steps[i] == steps[1..][i - 1];
      }
    }
  }

  /** On Windows no member of one walk step has a mode beyond 0o755. */
  lemma WinStepModesBounded(s: WalkStep)
    requires Relative(Windows, s.rel)
    requires WinStepMembers(s).Success?
    ensures forall i :: 0 <= i < |WinStepMembers(s).value| ==> WinStepMembers(s).value[i].mode & !PermMask == 0
  {
    var ms := WinStepMembers(s).value;
    WinStepOrder(s);
    forall i | 0 <= i < |ms|
      ensures ms[i].mode & !PermMask == 0
    {
      var tarDir := Posixify(Windows, s.rel);
      if i < |s.dirs| {
        var d := s.dirs[i];
        assert ms[i] == WinDirMember(tarDir, d).value;
        assert ms[i].mode == DirMode(d.mode.value);
      } else {
        var f := s.files[i - |s.dirs|];
        assert ms[|s.dirs| + (i - |s.dirs|)] == WinFileMember(tarDir, f).value;
        assert ms[i].mode == HeuristicMode(f.mode.value, Probe(f));
      }
    }
  }

  /** On Windows no member's mode exceeds 0o755. */
  lemma {:induction false} WinModesBounded(steps: seq<WalkStep>)
    requires ValidWalk(Windows, steps)
    requires BuildTar(true, steps).Success?
    ensures forall i :: 0 <= i < |BuildTar(true, steps).value| ==>
              BuildTar(true, steps).value[i].mode & !PermMask == 0
  {
    if |steps| > 0 {
      assert ValidWalk(Windows, steps[1..]) by {
        assert forall i :: 1 <= i < |steps| ==> steps[i] == steps[1..][i - 1];
      }
      var first := WinStepMembers(steps[0]);
      var rest := BuildTar(true, steps[1..]);
      assert first.Success? && rest.Success?;
      WinModesBounded(steps[1..]);
      WinStepModesBounded(steps[0]);
      assert BuildTar(true, steps).value == first.value + rest.value;
    }
  }

  /**
    A file gets all three execute bits exactly when the host already gave
    it all three, or its probe succeeded and shows a shebang or the ELF magic.
  */
  lemma ExecBitsExactly(m: Mode, probe: Option<seq<byte>>)
    ensures HeuristicMode(m, probe) & ExecBits == ExecBits <==>
              (m & ExecBits == ExecBits || (probe.Some? && LooksExecutable(probe.value)))
  {
    if !(probe.Some? && LooksExecutable(probe.value)) {
      assert HeuristicMode(m, probe) & ExecBits == m & ExecBits;
    }
  }

  /** On Windows a walk step yields its directories' members, then its files' members, in walk order. */
  lemma WinStepOrder(s: WalkStep)
    requires Relative(Windows, s.rel)
    requires WinStepMembers(s).Success?
    ensures var ms := WinStepMembers(s).value;
            var tarDir := Posixify(Windows, s.rel);
            && |ms| == |s.dirs| + |s.files|
            && (forall j :: 0 <= j < |s.dirs| ==> WinDirMember(tarDir, s.dirs[j]).Success? && ms[j] == WinDirMember(tarDir, s.dirs[j]).value)
            && (forall j :: 0 <= j < |s.files| ==> WinFileMember(tarDir, s.files[j]).Success? && ms[|s.dirs| + j] == WinFileMember(tarDir, s.files[j]).value)
  {
    var tarDir := Posixify(Windows, s.rel);
    var dirF := d => WinDirMember(tarDir, d);
    var fileF := f => WinFileMember(tarDir, f);
    var ds := MapAll(dirF, s.dirs);
    var fs := MapAll(fileF, s.files);
    assert ds.Success? && fs.Success?;
    var ms := ds.value + fs.value;
    assert WinStepMembers(s).value == ms;
    assert |ds.value| == |s.dirs|;
    forall j | 0 <= j < |s.dirs|
      ensures WinDirMember(tarDir, s.dirs[j]).Success? && ms[j] == WinDirMember(tarDir, s.dirs[j]).value
    {
      assert dirF(s.dirs[j]) == WinDirMember(tarDir, s.dirs[j]);
      assert ms[j] == ds.value[j];
    }
    forall j | 0 <= j < |s.files|
      ensures WinFileMember(tarDir, s.files[j]).Success? && ms[|s.dirs| + j] == WinFileMember(tarDir, s.files[j]).value
    {
      assert fileF(s.files[j]) == WinFileMember(tarDir, s.files[j]);
      assert ms[|s.dirs| + j] == fs.value[j];
    }
  }

  /**
    On Windows the files of a walk step become members named after their
    posixified container, carrying their whole data, and executable exactly
    when the host said so or the heuristic does.
  */
  lemma WinStepFiles(s: WalkStep, j: nat)
    requires Relative(Windows, s.rel)
    requires WinStepMembers(s).Success?
    requires j < |s.files|
    ensures var m := WinStepMembers(s).value[|s.dirs| + j];
            var f := s.files[j];
            && f.mode.Some? && f.data.Some?
            && m.name == JoinStep(Posixify(Windows, s.rel), f.name)
            && m.kind == RegularFile
            && m.content == f.data.value
            && (m.mode & ExecBits == ExecBits <==>
                  (f.mode.value & ExecBits == ExecBits || (f.probeReadable && LooksExecutable(Probe(f).value))))
  {
    WinStepOrder(s);
    var f := s.files[j];
    ExecBitsExactly(f.mode.value, Probe(f));
  }

  /** On a POSIX host the archive lists exactly the walk's files, in walk order, under posixified names. */
  lemma PosixStepFiles(s: WalkStep)
    requires Relative(Posix, s.rel)
    requires PosixStepMembers(s).Success?
    ensures var ms := PosixStepMembers(s).value;
            && |ms| == |s.files|
            && forall j :: 0 <= j < |s.files| ==>
                 ms[j] == Member(JoinStep(Posixify(Posix, s.rel), s.files[j].name), RegularFile,
                                 s.files[j].mode.value, s.files[j].data.value)
  {
    var tarDir := Posixify(Posix, s.rel);
    assert forall j :: 0 <= j < |s.files| ==> PosixFileMember(tarDir, s.files[j]).Success?;
  }

  // ---------------------------------------------------------------------------
  // Member names stay inside the payload root

  /**
    A name `os.walk` lists inside a directory: non-empty, free of
    separators, and neither `.` nor `..`, which directory listings omit.
  */
  predicate PlainName(h: Host, name: string)
  {
    |name| > 0 && NoSep(h, name) && name != "." && name != ".."
  }

  /**
    The walk as `os.walk` and `relpath` produce it below the root: every
    listed directory and file has a plain name, and no container path has a
    `..` segment.
  */
  predicate PlainNames(h: Host, steps: seq<WalkStep>)
  {
    forall i :: 0 <= i < |steps| ==>
      && NoParentSegment(h, steps[i].rel)
      && (forall j :: 0 <= j < |steps[i].dirs| ==> PlainName(h, steps[i].dirs[j].name))
      && (forall j :: 0 <= j < |steps[i].files| ==> PlainName(h, steps[i].files[j].name))
  }

  /**
    An archive name that stays inside the payload root: non-empty, not
    starting with `/`, and without a `..` segment.
  */
  predicate RelativeName(name: string)
  {
    |name| > 0 && name[0] != '/' && NoParentSegment(Posix, name)
  }

  /** An entry of a walk step is named below the step's posixified container. */
  lemma EntryNameRelative(h: Host, rel: string, name: string)
    requires Relative(h, rel) && NoParentSegment(h, rel) && PlainName(h, name)
    ensures RelativeName(JoinStep(Posixify(h, rel), name))
  {
    PosixifyRelative(h, rel);
    assert !IsSep(h, name[0]);
    JoinRelative(Posixify(h, rel), name);
    PosixifyNoParent(h, rel);
    assert NoSep(Posix, name);
    JoinStepNoParent(Posixify(h, rel), name);
  }

  /** Every member one walk step yields has a name relative to the payload root. */
  lemma StepNamesRelative(windows: bool, s: WalkStep)
    requires Relative(HostOf(windows), s.rel) && NoParentSegment(HostOf(windows), s.rel)
    requires forall j :: 0 <= j < |s.dirs| ==> PlainName(HostOf(windows), s.dirs[j].name)
    requires forall j :: 0 <= j < |s.files| ==> PlainName(HostOf(windows), s.files[j].name)
    requires (if windows then WinStepMembers(s) else PosixStepMembers(s)).Success?
    ensures var ms := (if windows then WinStepMembers(s) else PosixStepMembers(s)).value;
            forall i :: 0 <= i < |ms| ==> RelativeName(ms[i].name)
  {
    var h := HostOf(windows);
    if windows {
      var ms := WinStepMembers(s).value;
      WinStepOrder(s);
      forall i | 0 <= i < |ms|
        ensures RelativeName(ms[i].name)
      {
        if i < |s.dirs| {
          EntryNameRelative(h, s.rel, s.dirs[i].name);
        } else {
          var j := i - |s.dirs|;
          assert ms[|s.dirs| + j] == ms[i];
          EntryNameRelative(h, s.rel, s.files[j].name);
        }
      }
    } else {
      var ms := PosixStepMembers(s).value;
      PosixStepFiles(s);
      forall i | 0 <= i < |ms|
        ensures RelativeName(ms[i].name)
      {
        EntryNameRelative(h, s.rel, s.files[i].name);
      }
    }
  }

  /**
    Every member of the archive is named relative to the payload root and
    has no `..` segment, so unpacking it never writes outside the directory
    it is unpacked in.
  */
  lemma {:induction false} MemberNamesRelative(windows: bool, steps: seq<WalkStep>)
    requires ValidWalk(HostOf(windows), steps) && PlainNames(HostOf(windows), steps)
    requires BuildTar(windows, steps).Success?
    ensures forall i :: 0 <= i < |BuildTar(windows, steps).value| ==> RelativeName(BuildTar(windows, steps).value[i].name)
  {
    if |steps| > 0 {
      var h := HostOf(windows);
      assert ValidWalk(h, steps[1..]) && PlainNames(h, steps[1..]) by {
        assert forall i :: 1 <= i < |steps| ==> steps[i] == steps[1..][i - 1];
      }
      var first := if windows then WinStepMembers(steps[0]) else PosixStepMembers(steps[0]);
      var rest := BuildTar(windows, steps[1..]);
      assert first.Success? && rest.Success?;
      assert BuildTar(windows, steps).value == first.value + rest.value;
      StepNamesRelative(windows, steps[0]);
      MemberNamesRelative(windows, steps[1..]);
    }
  }
}

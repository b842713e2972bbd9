/**
  The provisioner run (`execute` and `create_provisioner`,
  make_provisioner/app.py): read the system's configuration, choose the
  output file, write the rendered stub into it, build the payload archive
  into a temporary file, rewind that file and append it to the output.

  The file system is reduced to what the run observes: the parsed
  configuration file (`None` when it cannot be read), the walk `os.walk`
  yields for each directory, and an `encode` function standing for tar and
  gzip encoding of a member list.
*/
module Installer {
  import opened Wrappers
  import opened Text
  import opened Config
  import opened Stub
  import opened Archive

  /** The parsed command line: the system to build for and `--output`. */
  datatype Options = Options(system: string, output: Option<string>)

  /** What the run sees of its host: `~`, the environment, and whether it is Windows. */
  datatype HostEnv = HostEnv(home: string, env: map<string, string>, windows: bool)

  datatype InstallError =
    | ConfigUnreadable                     // the configuration file cannot be opened or parsed
    | BadConfig(config: ConfigError)       // unknown system or missing stage2_dir
    | TemplateFailed(template: TemplateError)
    | ArchiveFailed(archive: ArchiveError)

  /** The output file the run leaves behind. */
  datatype Written = Written(path: string, contents: seq<byte>)

  /** The outcome of a run: the file it wrote, if it got that far, and the error that ended it. */
  datatype Run = Run(written: Option<Written>, error: Option<InstallError>)

  /** Writing at the end of a file appends. */
  lemma WriteAtEnd(s: Stream, b: seq<byte>)
    requires s.pos == |s.data|
    ensures Write(s, b) == Stream(s.data + b, |s.data| + |b|)
  {
    assert s.data[..s.pos] == s.data;
  }

  /**
    The payload as copied out of the temporary file: the archive is written
    into a fresh temporary file, which is rewound to where it started and
    copied to its end.
  */
  function Payload(windows: bool, steps: seq<WalkStep>, encode: seq<Member> -> seq<byte>): (r: Result<seq<byte>, ArchiveError>)
    requires ValidWalk(HostOf(windows), steps)
    ensures r.Success? <==> BuildTar(windows, steps).Success?
    ensures r.Success? ==> r.value == encode(BuildTar(windows, steps).value)
  {
    var members :- BuildTar(windows, steps);
    var tgz := Stream([], 0);
    var zero := tgz.pos;
    var written := Write(tgz, encode(members));
    WriteAtEnd(tgz, encode(members));
    assert written.data[0..] == encode(members);
    Success(ReadToEnd(Seek(written, zero)))
  }

  /**
    `create_provisioner`: the output file is truncated first, the stub is
    written, then the payload is appended. A template failure leaves the
    file empty; an archive failure leaves the stub alone in it.
  */
  function CreateProvisioner(outFile: string, t: Template, conf: Section, windows: bool,
                             steps: seq<WalkStep>, encode: seq<Member> -> seq<byte>): (r: (Written, Option<InstallError>))
    requires ValidWalk(HostOf(windows), steps)
    ensures r.0.path == outFile
    ensures SfxStub(t, conf).Failure? ==> r == (Written(outFile, []), Some(TemplateFailed(SfxStub(t, conf).error)))
    ensures SfxStub(t, conf).Success? && BuildTar(windows, steps).Failure? ==>
              r == (Written(outFile, Utf8(SfxStub(t, conf).value)), Some(ArchiveFailed(BuildTar(windows, steps).error)))
    ensures SfxStub(t, conf).Success? && BuildTar(windows, steps).Success? ==>
              r == (Written(outFile, Utf8(SfxStub(t, conf).value) + encode(BuildTar(windows, steps).value)), None)
  {
    var sfx := Stream([], 0);
    match SfxStub(t, conf)
    case Failure(e) => (Written(outFile, sfx.data), Some(TemplateFailed(e)))
    case Success(stub) =>
      var withStub := Write(sfx, Utf8(stub));
      WriteAtEnd(sfx, Utf8(stub));
      match Payload(windows, steps, encode)
      case Failure(e) => (Written(outFile, withStub.data), Some(ArchiveFailed(e)))
      case Success(payload) =>
        WriteAtEnd(withStub, payload);
        (Written(outFile, Write(withStub, payload).data), None)
  }

  /** `conf['stage2_dir']`. */
  function Stage2Dir(conf: Section): (r: Result<string, ConfigError>)
    ensures r.Success? <==> "stage2_dir" in conf
    ensures r.Success? ==> r.value == conf["stage2_dir"]
    ensures r.Failure? ==> r.error == MissingKey("stage2_dir")
  {
    if "stage2_dir" in conf then Success(conf["stage2_dir"]) else Failure(MissingKey("stage2_dir"))
  }

  /** Every walk the host can yield lists relative container paths. */
  ghost predicate ValidTree(windows: bool, tree: string -> seq<WalkStep>)
  {
    forall d :: ValidWalk(HostOf(windows), tree(d))
  }

  /**
    `execute`: `source` is the parsed configuration file, `tree(d)` the
    walk of directory `d`, `encode` the archive encoding. Nothing is written
    until the configuration has been read and `stage2_dir` found.
  */
  function Execute(opts: Options, source: Option<Ini>, host: HostEnv, t: Template,
                   tree: string -> seq<WalkStep>, encode: seq<Member> -> seq<byte>): (r: Run)
    requires ValidTree(host.windows, tree)
    ensures source.None? ==> r == Run(None, Some(ConfigUnreadable))
    ensures source.Some? && ReadConfig(source.value, opts.system, host.home, host.env).Failure? ==>
              r == Run(None, Some(BadConfig(ReadConfig(source.value, opts.system, host.home, host.env).error)))
    ensures source.Some? && ReadConfig(source.value, opts.system, host.home, host.env).Success? ==>
              var conf := ReadConfig(source.value, opts.system, host.home, host.env).value;
              && (r.written.None? <==> "stage2_dir" !in conf)
              && ("stage2_dir" !in conf ==> r.error == Some(BadConfig(MissingKey("stage2_dir"))))
              && ("stage2_dir" in conf ==> r.written.value.path == OutputPath(opts.output, conf))
  {
    match source
    case None => Run(None, Some(ConfigUnreadable))
    case Some(ini) =>
      match ReadConfig(ini, opts.system, host.home, host.env)
      case Failure(e) => Run(None, Some(BadConfig(e)))
      case Success(conf) =>
        var output := OutputPath(opts.output, conf);
        match Stage2Dir(conf)
        case Failure(e) => Run(None, Some(BadConfig(e)))
        case Success(dir) =>
          var (w, err) := CreateProvisioner(output, t, conf, host.windows, tree(dir), encode);
          Run(Some(w), err)
  }

  /** Every run that ends without error has written the stub followed by the whole archive. */
  lemma ExecuteLayout(opts: Options, source: Option<Ini>, host: HostEnv, t: Template,
                      tree: string -> seq<WalkStep>, encode: seq<Member> -> seq<byte>)
    requires ValidTree(host.windows, tree)
    requires Execute(opts, source, host, t, tree, encode).error.None?
    ensures source.Some? && ReadConfig(source.value, opts.system, host.home, host.env).Success?
    ensures var conf := ReadConfig(source.value, opts.system, host.home, host.env).value;
            && "stage2_dir" in conf
            && SfxStub(t, conf).Success?
            && BuildTar(host.windows, tree(conf["stage2_dir"])).Success?
            && Execute(opts, source, host, t, tree, encode).written ==
                 Some(Written(OutputPath(opts.output, conf),
                              Utf8(SfxStub(t, conf).value) + encode(BuildTar(host.windows, tree(conf["stage2_dir"])).value)))
  {
  }

  /**
    A failure after the output file was opened leaves a truncated file: empty
    when the template fails, the stub alone when the archive fails.
  */
  lemma ExecuteFailureLeavesPrefix(opts: Options, source: Option<Ini>, host: HostEnv, t: Template,
                                   tree: string -> seq<WalkStep>, encode: seq<Member> -> seq<byte>)
    requires ValidTree(host.windows, tree)
    requires Execute(opts, source, host, t, tree, encode).written.Some?
    requires Execute(opts, source, host, t, tree, encode).error.Some?
    ensures var conf := ReadConfig(source.value, opts.system, host.home, host.env).value;
            var r := Execute(opts, source, host, t, tree, encode);
            && (r.error.value.TemplateFailed? ==> r.written.value.contents == [])
            && (r.error.value.ArchiveFailed? ==> r.written.value.contents == Utf8(SfxStub(t, conf).value))
            && (r.error.value.TemplateFailed? || r.error.value.ArchiveFailed?)
  {
    var conf := ReadConfig(source.value, opts.system, host.home, host.env).value;
    var created := CreateProvisioner(OutputPath(opts.output, conf), t, conf, host.windows, tree(conf["stage2_dir"]), encode);
    assert Execute(opts, source, host, t, tree, encode) == Run(Some(created.0), created.1);
  }

  /** Skipping CUT_LINE - 1 lines of the stub followed by anything lands on what follows the stub. */
  lemma CutLineSkipsStub(t: Template, conf: Section, rest: seq<byte>)
    requires WellFormed(t) && SingleLineStubConfig(conf)
    requires WholeLines(Raw(t))
    requires SfxStub(t, conf).Success?
    ensures var cut := DecimalValue(StubVars(Raw(t), conf)["CUT_LINE"]);
            cut >= 1 && DropLines(Utf8(SfxStub(t, conf).value) + rest, cut - 1) == rest
  {
    var stub := SfxStub(t, conf).value;
    StubCutLineValue(Raw(t), conf);
    StubCutLine(t, conf);
    StubEndsWithLineFeed(t, conf);
    Utf8WholeLines(stub, rest);
  }

  /**
    The self-extraction contract: when the template is well formed and its
    text ends in a line break, and the configured guest directory and
    script hold no line break, `tail -n +CUT_LINE` of the installer yields
    exactly the encoded archive.
  */
  lemma CutLineFindsArchive(outFile: string, t: Template, conf: Section, windows: bool,
                            steps: seq<WalkStep>, encode: seq<Member> -> seq<byte>)
    requires ValidWalk(HostOf(windows), steps)
    requires WellFormed(t) && SingleLineStubConfig(conf)
    requires WholeLines(Raw(t))
    requires CreateProvisioner(outFile, t, conf, windows, steps, encode).1.None?
    ensures var cut := DecimalValue(StubVars(Raw(t), conf)["CUT_LINE"]);
            && cut >= 1
            && DropLines(CreateProvisioner(outFile, t, conf, windows, steps, encode).0.contents, cut - 1)
               == encode(BuildTar(windows, steps).value)
  {
    var written := CreateProvisioner(outFile, t, conf, windows, steps, encode);
    assert SfxStub(t, conf).Success? && BuildTar(windows, steps).Success?;
    var archive := encode(BuildTar(windows, steps).value);
    assert written.0.contents == Utf8(SfxStub(t, conf).value) + archive;
    CutLineSkipsStub(t, conf, archive);
  }
}

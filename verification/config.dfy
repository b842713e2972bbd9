/**
  The configuration view of make_provisioner/app.py: the first-present-key
  lookup (`_first_key`), the HOME/USER defaults taken from the environment
  (`read_config`), the flattening of one system's section over the
  defaults (`ini.items(system)`), and the choice of output file
  (`execute`). Parsing of the ini text and `%` interpolation are not part
  of this model: an `Ini` is the parser's result.
*/
module Config {
  import opened Wrappers

  /** One resolved section: option name to value (option names keep their case). */
  type Section = map<string, string>

  /** Name of the parser's default section. */
  const DefaultSect := "DEFAULT"

  /** A parsed configuration file: the default section and the named sections. */
  datatype Ini = Ini(defaults: Section, sections: map<string, Section>)

  datatype ConfigError =
    | NoSection(name: string)      // configparser.NoSectionError
    | MissingKey(key: string)      // KeyError on a required option

  /** The value of the earliest of `keys` that `d` has, else `default`. */
  function FirstKey<V>(d: map<string, V>, keys: seq<string>, default: V): (r: V)
    ensures (forall i :: 0 <= i < |keys| ==> keys[i] !in d) ==> r == default
    ensures forall i :: 0 <= i < |keys| && keys[i] in d && (forall j :: 0 <= j < i ==> keys[j] !in d)
                        ==> r == d[keys[i]]
  {
    if |keys| == 0 then default
    else if keys[0] in d then d[keys[0]]
    else FirstKey(d, keys[1..], default)
  }

  /** `d.get(key, default)`. */
  function Get(d: Section, key: string, default: string): (r: string)
    ensures r == FirstKey(d, [key], default)
  {
    if key in d then d[key] else default
  }

  /** The environment variables consulted, in order, for the default USER. */
  const UserVariables: seq<string> := ["USER", "USERNAME", "LOGNAME"]

  /**
    The ini file with HOME and USER added to its default section when it
    does not define them; `home` is the expansion of `~`, `env` the process
    environment.
  */
  function WithEnvironmentDefaults(ini: Ini, home: string, env: map<string, string>): (r: Ini)
    ensures r.sections == ini.sections
    ensures r.defaults.Keys == ini.defaults.Keys + {"HOME", "USER"}
    ensures forall k :: k in ini.defaults ==> r.defaults[k] == ini.defaults[k]
    ensures "HOME" !in ini.defaults ==> r.defaults["HOME"] == home
    ensures "USER" !in ini.defaults ==> r.defaults["USER"] == FirstKey(env, UserVariables, "")
  {
    var withHome :=
      if "HOME" in ini.defaults then ini.defaults else ini.defaults["HOME" := home];
    var withUser :=
      if "USER" in withHome then withHome
      else withHome["USER" := FirstKey(env, UserVariables, "")];
    Ini(withUser, ini.sections)
  }

  /**
    `dict(ini.items(system))`: the system's options laid over the defaults.
    The default section itself may be named; any other unknown name is an error.
  */
  function Items(ini: Ini, system: string): (r: Result<Section, ConfigError>)
    ensures r.Failure? <==> system !in ini.sections && system != DefaultSect
    ensures r.Failure? ==> r.error == NoSection(system)
    ensures r.Success? ==> r.value.Keys == ini.defaults.Keys + (if system in ini.sections then ini.sections[system].Keys else {})
    ensures r.Success? && system in ini.sections ==>
              forall k :: k in ini.sections[system] ==> r.value[k] == ini.sections[system][k]
    ensures r.Success? ==>
              forall k :: k in ini.defaults && (system !in ini.sections || k !in ini.sections[system])
                          ==> r.value[k] == ini.defaults[k]
  {
    if system in ini.sections then Success(ini.defaults + ini.sections[system])
    else if system == DefaultSect then Success(ini.defaults)
    else Failure(NoSection(system))
  }

  /** `read_config`: the section for `system`, with HOME and USER always present. */
  function ReadConfig(ini: Ini, system: string, home: string, env: map<string, string>): (r: Result<Section, ConfigError>)
    ensures r.Success? ==> "HOME" in r.value && "USER" in r.value
  {
    Items(WithEnvironmentDefaults(ini, home, env), system)
  }

  /**
    Where a configured value of HOME comes from: the system's own section,
    else the file's default section, else the caller's home directory.
  */
  lemma ReadConfigHome(ini: Ini, system: string, home: string, env: map<string, string>)
    requires ReadConfig(ini, system, home, env).Success?
    ensures ReadConfig(ini, system, home, env).value["HOME"] ==
              if system in ini.sections && "HOME" in ini.sections[system] then ini.sections[system]["HOME"]
              else if "HOME" in ini.defaults then ini.defaults["HOME"]
              else home
  {
  }

  /**
    Where USER comes from: the section, else the default section, else the
    first of USER, USERNAME, LOGNAME in the environment, else empty.
  */
  lemma ReadConfigUser(ini: Ini, system: string, home: string, env: map<string, string>)
    requires ReadConfig(ini, system, home, env).Success?
    ensures ReadConfig(ini, system, home, env).value["USER"] ==
              if system in ini.sections && "USER" in ini.sections[system] then ini.sections[system]["USER"]
              else if "USER" in ini.defaults then ini.defaults["USER"]
              else if "USER" in env then env["USER"]
              else if "USERNAME" in env then env["USERNAME"]
              else if "LOGNAME" in env then env["LOGNAME"]
              else ""
  {
    var r := FirstKey(env, UserVariables, "");
    if "USER" in env {
      assert r == env[UserVariables[0]];
    } else if "USERNAME" in env {
      assert r == env[UserVariables[1]];
    } else if "LOGNAME" in env {
      assert r == env[UserVariables[2]];
    } else {
      assert forall i :: 0 <= i < |UserVariables| ==> UserVariables[i] !in env;
    }
  }

  /**
    The output path: the `--output` option when given, else the section's
    `output_file`, else `provisioner.sh`.
  */
  function OutputPath(option: Option<string>, conf: Section): (r: string)
    ensures option.Some? ==> r == option.value
    ensures option.None? ==> r == FirstKey(conf, ["output_file"], "provisioner.sh")
  {
    if option.Some? then option.value
    else if "output_file" in conf then conf["output_file"]
    else "provisioner.sh"
  }
}

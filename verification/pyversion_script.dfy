/**
  The stand-alone Python 3 gate (pyversion.py): every complaint goes
  through `perr`, which raises the module's fail flag; `check` complains
  about a non-3 major or a 3.x older than 3.2 and, with the flag raised,
  adds the requirement line and exits with status 2. Run as a script it
  then reports success on standard output.
*/
module PyVersionScript {
  import opened Wrappers
  import opened Text
  import PyVersion

  /** The module state `_STATE` and what has been printed to standard error. */
  datatype State = State(fail: bool, stderr: seq<string>)

  const Initial := State(false, [])

  const Summary := "Python 3 (3.2+, less than 4.0) is required."
  const Succeeded := "Python version check succeeded."

  /** `perr`: raise the fail flag and print the line on standard error. */
  function Perr(s: State, line: string): (r: State)
    ensures r.fail
    ensures r.stderr == s.stderr + [line]
  {
    State(true, s.stderr + [line])
  }

  /** What running the gate leaves: state, exit status if it exited, and standard output. */
  datatype Outcome = Outcome(state: State, exit: Option<int>, stdout: seq<string>)

  /** The complaint about the running version, if it has one. */
  function Complaint(major: nat, minor: nat): (r: Option<string>)
    ensures r.None? <==> major == 3 && minor >= 2
  {
    if major != 3 then Some("Error: this is Python " + Decimal(major) + ", not 3.x")
    else if minor < 2 then Some("Error: this is Python 3." + Decimal(minor) + ", not 3.2+")
    else None
  }

  /** `check` from state `s`. */
  function Check(s: State, major: nat, minor: nat): (r: Outcome)
    ensures r.exit.None? <==> !s.fail && major == 3 && minor >= 2
    ensures r.exit.Some? ==> r.exit.value == 2 && r.state.fail
                             && |r.state.stderr| > 0 && r.state.stderr[|r.state.stderr| - 1] == Summary
    ensures r.exit.None? ==> r.state == s
    ensures r.stdout == []
  {
    var s1 := match Complaint(major, minor)
              case Some(line) => Perr(s, line)
              case None => s;
    if s1.fail then Outcome(Perr(s1, Summary), Some(2), [])
    else Outcome(s1, None, [])
  }

  /** The script: `check()` from the initial state, then the success line if it did not exit. */
  function Script(major: nat, minor: nat): (r: Outcome)
  {
    var c := Check(Initial, major, minor);
    if c.exit.Some? then c else Outcome(c.state, None, [Succeeded])
  }

  /** The script passes exactly on 3.2 and later 3.x, and then prints nothing on standard error. */
  lemma ScriptPassesExactly(major: nat, minor: nat)
    ensures Script(major, minor).exit.None? <==> major == 3 && minor >= 2
    ensures Script(major, minor).exit.None? ==>
              Script(major, minor) == Outcome(Initial, None, [Succeeded])
    ensures Script(major, minor).exit.Some? ==>
              && Script(major, minor).exit.value == 2
              && Script(major, minor).state.stderr == [Complaint(major, minor).value, Summary]
  {
  }

  /** With a major other than 3 the minor is never consulted. */
  lemma MinorIgnoredForOtherMajors(major: nat, minor1: nat, minor2: nat)
    requires major != 3
    ensures Script(major, minor1) == Script(major, minor2)
  {
  }

  /** A fail flag raised earlier makes `check` exit with status 2 even on a good version. */
  lemma RaisedFlagExits(s: State, major: nat, minor: nat)
    requires s.fail
    ensures Check(s, major, minor).exit == Some(2)
    ensures Check(s, major, minor).state.stderr[|s.stderr|..] ==
              (match Complaint(major, minor) case Some(line) => [line, Summary] case None => [Summary])
  {
  }

  /**
    This gate is stricter than the package's own (cloud_maker/py_version.py):
    whatever it lets through the package accepts too, while 2.7 passes the
    package's gate and fails this one.
  */
  lemma StricterThanPackageGate(major: nat, minor: nat)
    ensures Script(major, minor).exit.None? ==> PyVersion.Supported(major, minor)
    ensures PyVersion.Supported(2, 7) && Script(2, 7).exit == Some(2)
  {
    ScriptPassesExactly(major, minor);
    ScriptPassesExactly(2, 7);
  }
}

/**
  The interpreter version gate of the package (cloud_maker/py_version.py):
  `check_ex` raises a VersionError naming the unsupported version, and
  `check` turns that into two lines on standard error and exit status 2.
*/
module PyVersion {
  import opened Wrappers
  import opened Text

  datatype VersionError =
    | Python3TooOld(minor: nat)      // 3.0 and 3.1
    | Python2TooOld(minor: nat)      // 2.0 to 2.6
    | UnsupportedMajor(major: nat)   // anything but 2 and 3

  /** The versions the package runs on: 2.7 and later 2.x, 3.2 and later 3.x. */
  predicate Supported(major: nat, minor: nat)
  {
    (major == 2 && minor >= 7) || (major == 3 && minor >= 2)
  }

  /** `check_ex`: the error raised for the running `major.minor`, if any. */
  function CheckEx(major: nat, minor: nat): (r: Option<VersionError>)
    ensures r.None? <==> Supported(major, minor)
    ensures r.Some? ==> match r.value
                        case Python3TooOld(m) => major == 3 && m == minor
                        case Python2TooOld(m) => major == 2 && m == minor
                        case UnsupportedMajor(m) => m == major && major != 2 && major != 3
  {
    if major == 3 then
      if minor < 2 then Some(Python3TooOld(minor)) else None
    else if major == 2 then
      if minor < 7 then Some(Python2TooOld(minor)) else None
    else Some(UnsupportedMajor(major))
  }

  /** The error's message text. */
  function Message(e: VersionError): string
  {
    match e
    case Python3TooOld(m) => "Error: this is Python 3." + Decimal(m) + ", not 3.2+"
    case Python2TooOld(m) => "Error: this is Python 2." + Decimal(m) + ", not 2.7"
    case UnsupportedMajor(m) => "Error: this is Python " + Decimal(m) + ", not 2.7 nor 3.x"
  }

  const Required := "Python 2.7 or 3.2+ is required."

  /** What `check` does: its exit status when it exits, and its lines on standard error. */
  datatype Outcome = Outcome(exit: Option<int>, stderr: seq<string>)

  /**
    `check`: a supported version returns quietly; any other prints the
    error's arguments tuple and the requirement, then exits with status 2.
  */
  function Check(major: nat, minor: nat): (r: Outcome)
    ensures r.exit.None? <==> Supported(major, minor)
    ensures r.exit.None? ==> r.stderr == []
    ensures r.exit.Some? ==> r.exit.value == 2 && |r.stderr| == 2 && r.stderr[1] == Required
    ensures r.exit.Some? ==> CheckEx(major, minor).Some? && r.stderr[0] == "('" + Message(CheckEx(major, minor).value) + "',)"
  {
    match CheckEx(major, minor)
    case None => Outcome(None, [])
    case Some(e) => Outcome(Some(2), ["('" + Message(e) + "',)", Required])
  }

  /** Any major other than 2 and 3 is refused, whatever the minor. */
  lemma OtherMajorsRefused(major: nat, minor1: nat, minor2: nat)
    requires major != 2 && major != 3
    ensures CheckEx(major, minor1) == CheckEx(major, minor2) == Some(UnsupportedMajor(major))
  {
  }
}

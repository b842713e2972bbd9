/**
  The installer stub (`get_sfx_stub`, make_provisioner/app.py): the fixed
  shell template `scripts/guest.sh` with its CUT_LINE, CLOUD_DIR and RUNNER
  placeholders filled in. The template engine itself is not part of this
  model; a template is represented by its literal text and placeholders in
  order, and substitution replaces each placeholder by its value.
*/
module Stub {
  import opened Wrappers
  import opened Text
  import opened Config
  import opened ShellQuote

  datatype Piece = Literal(text: string) | Placeholder(name: string)

  /** A template: literal text interleaved with named placeholders. */
  type Template = seq<Piece>

  datatype TemplateError = Unresolved(name: string)   // KeyError from `substitute`

  /** How a placeholder is spelt in the template text. */
  function PlaceholderText(name: string): string
  {
    "{" + name + "}"
  }

  function RawPiece(p: Piece): string
  {
    match p
    case Literal(s) => s
    case Placeholder(n) => PlaceholderText(n)
  }

  /** The template's own text, as loaded from the resource, before substitution. */
  function Raw(t: Template): string
  {
    if |t| == 0 then "" else RawPiece(t[0]) + Raw(t[1..])
  }

  /** Placeholder names are identifiers: none spans a line break. */
  predicate WellFormed(t: Template)
  {
    forall i :: 0 <= i < |t| && t[i].Placeholder? ==> '\n' !in t[i].name
  }

  /** Every placeholder of `t` has a value in `vars`. */
  predicate Resolved(t: Template, vars: map<string, string>)
  {
    forall i :: 0 <= i < |t| && t[i].Placeholder? ==> t[i].name in vars
  }

  /**
    `Template(txt).substitute(vars)`: every placeholder replaced by its
    value; the first placeholder without a value is reported.
  */
  function Substitute(t: Template, vars: map<string, string>): (r: Result<string, TemplateError>)
    ensures r.Success? <==> Resolved(t, vars)
    ensures r.Failure? ==> Placeholder(r.error.name) in t && r.error.name !in vars
  {
    if |t| == 0 then Success("")
    else
      match t[0]
      case Literal(s) =>
        assert t == [t[0]] + t[1..];
        (match Substitute(t[1..], vars)
         case Success(rest) => Success(s + rest)
         case Failure(e) => Failure(e))
      case Placeholder(n) =>
        if n !in vars then Failure(Unresolved(n))
        else
          assert t == [t[0]] + t[1..];
          (match Substitute(t[1..], vars)
           case Success(rest) => Success(vars[n] + rest)
           case Failure(e) => Failure(e))
  }

  /** No value spans a line break. */
  predicate SingleLineValues(vars: map<string, string>)
  {
    forall k :: k in vars ==> '\n' !in vars[k]
  }

  /**
    Substituting single-line values into a well-formed template keeps the
    number of line breaks of the template's raw text.
  */
  lemma {:induction false} SubstituteKeepsLineCount(t: Template, vars: map<string, string>)
    requires WellFormed(t) && SingleLineValues(vars)
    requires Substitute(t, vars).Success?
    ensures Count(Substitute(t, vars).value, '\n') == Count(Raw(t), '\n')
  {
    if |t| > 0 {
      var rest := Substitute(t[1..], vars).value;
      SubstituteKeepsLineCount(t[1..], vars);
      CountAppend(RawPiece(t[0]), Raw(t[1..]), '\n');
      match t[0]
      case Literal(s) =>
        CountAppend(s, rest, '\n');
      case Placeholder(n) =>
        CountAppend(vars[n], rest, '\n');
        CountAppend("{" + n, "}", '\n');
        CountAppend("{", n, '\n');
    }
  }

  /** A template whose text is empty renders as the empty string. */
  lemma {:induction false} EmptyRawRendersEmpty(t: Template, vars: map<string, string>)
    requires Raw(t) == "" && Substitute(t, vars).Success?
    ensures Substitute(t, vars).value == ""
  {
    if |t| > 0 {
      assert RawPiece(t[0]) == "";
      EmptyRawRendersEmpty(t[1..], vars);
    }
  }

  /** A template whose text ends in a line break renders to text that does too. */
  lemma {:induction false} SubstituteKeepsFinalNewline(t: Template, vars: map<string, string>)
    requires |Raw(t)| > 0 && Raw(t)[|Raw(t)| - 1] == '\n'
    requires Substitute(t, vars).Success?
    ensures var out := Substitute(t, vars).value; |out| > 0 && out[|out| - 1] == '\n'
  {
    var head := RawPiece(t[0]);
    var rest := Substitute(t[1..], vars).value;
    if |Raw(t[1..])| > 0 {
      assert Raw(t)[|Raw(t)| - 1] == Raw(t[1..])[|Raw(t[1..])| - 1];
      SubstituteKeepsFinalNewline(t[1..], vars);
    } else {
      EmptyRawRendersEmpty(t[1..], vars);
      assert Raw(t) == head;
      match t[0]
      case Literal(s) =>
        assert Substitute(t, vars).value == s + rest;
      case Placeholder(n) =>
        assert false;
    }
  }

  // ---------------------------------------------------------------------------
  // get_sfx_stub

  // The defaults of `guest_stage2_dir` and `stage2_script`. As plain literals the verifier
  // unfolds `ShQuote` on them character by character and the stub proofs run out of resource.
  const DefaultCloudDir: string := "/var/tmp/" + "cloud-maker"
  const DefaultScript: string := "main" + ".sh"

  /** The configuration values that end up inside the stub hold no line break. */
  predicate SingleLineStubConfig(conf: Section)
  {
    && '\n' !in Get(conf, "guest_stage2_dir", DefaultCloudDir)
    && '\n' !in Get(conf, "stage2_script", DefaultScript)
  }

  /** The placeholders the stub template may use. */
  const StubNames: set<string> := {"CUT_LINE", "CLOUD_DIR", "RUNNER"}

  /** The substitution variables of the stub. */
  function StubVars(txt: string, conf: Section): map<string, string>
  {
    Placeholders(Decimal(1 + Count(txt, '\n')),
                 ShQuote(Get(conf, "guest_stage2_dir", DefaultCloudDir)),
                 ShQuote("./" + Get(conf, "stage2_script", DefaultScript)))
  }

  /** The dictionary handed to the template engine. */
  function Placeholders(cutLine: string, cloudDir: string, runner: string): (vars: map<string, string>)
    ensures vars.Keys == StubNames
    ensures vars["CUT_LINE"] == cutLine && vars["CLOUD_DIR"] == cloudDir && vars["RUNNER"] == runner
    ensures '\n' !in cutLine && '\n' !in cloudDir && '\n' !in runner ==> SingleLineValues(vars)
  {
    map["CUT_LINE" := cutLine, "CLOUD_DIR" := cloudDir, "RUNNER" := runner]
  }

  /** CUT_LINE is the decimal numeral of one more than the template's line breaks. */
  lemma {:induction false} StubCutLineValue(txt: string, conf: Section)
    ensures var cut := StubVars(txt, conf)["CUT_LINE"];
            IsDigits(cut) && DecimalValue(cut) == 1 + Count(txt, '\n')
  {
    var n := 1 + Count(txt, '\n');
    assert StubVars(txt, conf)["CUT_LINE"] == Decimal(n);
    DecimalRoundTrip(n);
  }

  /** CLOUD_DIR is a shell word that evaluates to the configured guest directory. */
  lemma {:induction false} StubCloudDirWord(txt: string, conf: Section)
    ensures Unquote(StubVars(txt, conf)["CLOUD_DIR"]) == Some(Get(conf, "guest_stage2_dir", DefaultCloudDir))
  {
    ShQuoteRoundTrip(Get(conf, "guest_stage2_dir", DefaultCloudDir));
  }

  /** RUNNER is a shell word that evaluates to `./` followed by the configured script. */
  lemma {:induction false} StubRunnerWord(txt: string, conf: Section)
    ensures Unquote(StubVars(txt, conf)["RUNNER"]) == Some("./" + Get(conf, "stage2_script", DefaultScript))
  {
    ShQuoteRoundTrip("./" + Get(conf, "stage2_script", DefaultScript));
  }

  /** Single-line configured values give single-line substitutions. */
  lemma {:induction false} StubVarsSingleLine(txt: string, conf: Section)
    requires SingleLineStubConfig(conf)
    ensures SingleLineValues(StubVars(txt, conf))
  {
    var cloudDir := Get(conf, "guest_stage2_dir", DefaultCloudDir);
    var script := Get(conf, "stage2_script", DefaultScript);
    ShQuoteNewlines(cloudDir);
    ShQuoteNewlines("./" + script);
    CountAppend("./", script, '\n');
    assert Count("./", '\n') == 0;
    assert '\n' !in ShQuote(cloudDir);
    assert '\n' !in ShQuote("./" + script);
  }

  /** `get_sfx_stub`: the template with the stub variables substituted. */
  function SfxStub(t: Template, conf: Section): (r: Result<string, TemplateError>)
    ensures r.Success? <==>
              forall i :: 0 <= i < |t| && t[i].Placeholder? ==> t[i].name in StubNames
  {
    Substitute(t, StubVars(Raw(t), conf))
  }

  /** A template whose text is empty or ends in a line break renders to such text. */
  lemma SubstituteWholeLines(t: Template, vars: map<string, string>)
    requires WholeLines(Raw(t))
    requires Substitute(t, vars).Success?
    ensures WholeLines(Substitute(t, vars).value)
  {
    if |Raw(t)| == 0 {
      EmptyRawRendersEmpty(t, vars);
    } else {
      SubstituteKeepsFinalNewline(t, vars);
    }
  }

  /** A stub template whose text is empty or ends in a line break renders to such text. */
  lemma StubEndsWithLineFeed(t: Template, conf: Section)
    requires WholeLines(Raw(t))
    requires SfxStub(t, conf).Success?
    ensures WholeLines(SfxStub(t, conf).value)
  {
    SubstituteWholeLines(t, StubVars(Raw(t), conf));
  }

  /**
    The CUT_LINE invariant: when the configured values are single-line, the
    rendered stub has exactly CUT_LINE - 1 line breaks, the same number as
    the raw template.
  */
  lemma {:induction false} StubCutLine(t: Template, conf: Section)
    requires WellFormed(t) && SingleLineStubConfig(conf)
    requires SfxStub(t, conf).Success?
    ensures var cut := DecimalValue(StubVars(Raw(t), conf)["CUT_LINE"]);
            Count(SfxStub(t, conf).value, '\n') == cut - 1
  {
    StubCutLineValue(Raw(t), conf);
    StubVarsSingleLine(Raw(t), conf);
    SubstituteKeepsLineCount(t, StubVars(Raw(t), conf));
  }

  /** A template made of one placeholder and a literal tail, substituted and counted. */
  lemma PlaceholderThenTail(name: string, tail: string, vars: map<string, string>)
    requires name in vars && '\n' !in name
    ensures var t := [Placeholder(name), Literal(tail)];
            && Count(Raw(t), '\n') == Count(tail, '\n')
            && Substitute(t, vars) == Success(vars[name] + tail)
            && Count(Substitute(t, vars).value, '\n') == Count(vars[name], '\n') + Count(tail, '\n')
  {
    var t := [Placeholder(name), Literal(tail)];
    var t1: Template := [Literal(tail)];
    assert t[1..] == t1 && t1[1..] == [];
    assert Raw(t1) == tail + "";
    assert Raw(t) == PlaceholderText(name) + tail;
    assert Substitute(t1, vars) == Success(tail + "");
    assert tail + "" == tail;
    assert Substitute(t, vars) == Success(vars[name] + tail);
    CountAppend(PlaceholderText(name), tail, '\n');
    CountAppend("{" + name, "}", '\n');
    CountAppend("{", name, '\n');
    CountAppend(vars[name], tail, '\n');
  }

  /**
    Without the single-line condition the invariant fails: in a stub that
    starts with CLOUD_DIR, every line break of the configured guest
    directory pushes the archive one line further down than CUT_LINE says.
  */
  lemma MultiLineValueShiftsCutLine(tail: string, conf: Section)
    requires "guest_stage2_dir" in conf
    ensures var t := [Placeholder("CLOUD_DIR"), Literal(tail)];
            && SfxStub(t, conf).Success?
            && Count(SfxStub(t, conf).value, '\n') ==
                 DecimalValue(StubVars(Raw(t), conf)["CUT_LINE"]) - 1 + Count(conf["guest_stage2_dir"], '\n')
  {
    var t := [Placeholder("CLOUD_DIR"), Literal(tail)];
    var dir := conf["guest_stage2_dir"];
    var vars := StubVars(Raw(t), conf);
    PlaceholderThenTail("CLOUD_DIR", tail, vars);
    StubCutLineValue(Raw(t), conf);
    assert vars["CLOUD_DIR"] == ShQuote(dir);
    ShQuoteNewlines(dir);
  }
}

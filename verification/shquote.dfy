/**
  Shell quoting of values injected into the installer stub
  (`shquote`, make_provisioner/app.py), together with a small model of how
  a POSIX shell removes quotes from a word, against which the quoting is
  proved to round-trip.
*/
module ShellQuote {
  import opened Wrappers
  import opened Text

  const Quote: char := '\''
  const Backslash: char := '\\'

  // ---------------------------------------------------------------------------
  // Python's str.split / str.join for a one-character separator

  /** `s.split(sep)`: the maximal separator-free pieces of `s`, in order. */
  function SplitOn(s: string, sep: char): (parts: seq<string>)
    ensures |parts| == Count(s, sep) + 1
    ensures forall i :: 0 <= i < |parts| ==> sep !in parts[i]
  {
    if |s| == 0 then [""]
    else
      var rest := SplitOn(s[1..], sep);
      if s[0] == sep then [""] + rest
      else [[s[0]] + rest[0]] + rest[1..]
  }

  /** `sep.join(parts)`. */
  function Join(parts: seq<string>, sep: string): string
  {
    if |parts| == 0 then ""
    else if |parts| == 1 then parts[0]
    else parts[0] + sep + Join(parts[1..], sep)
  }

  /** Joining the pieces of a split with the separator gives back the string. */
  lemma {:induction false} JoinSplit(s: string, sep: char)
    ensures Join(SplitOn(s, sep), [sep]) == s
  {
    if |s| > 0 {
      var rest := SplitOn(s[1..], sep);
      JoinSplit(s[1..], sep);
      if s[0] == sep {
        assert s == [sep] + s[1..];
      } else {
        assert s == [s[0]] + s[1..];
        if |rest| > 1 {
          assert ([[s[0]] + rest[0]] + rest[1..])[1..] == rest[1..];
        }
      }
    }
  }

  // ---------------------------------------------------------------------------
  // shquote

  /** Each piece wrapped in single quotes: the generator `"'" + p + "'" for p in ...`. */
  function WrapAll(parts: seq<string>): (w: seq<string>)
    ensures |w| == |parts|
  {
    if |parts| == 0 then [] else ["'" + parts[0] + "'"] + WrapAll(parts[1..])
  }

  /** The wrapped list holds each piece in quotes, at the piece's own position. */
  lemma {:induction false} WrapAllPieces(parts: seq<string>)
    ensures forall i :: 0 <= i < |parts| ==> WrapAll(parts)[i] == "'" + parts[i] + "'"
  {
    if |parts| > 0 {
      WrapAllPieces(parts[1..]);
      assert forall i :: 1 <= i < |parts| ==> WrapAll(parts)[i] == WrapAll(parts[1..])[i - 1];
    }
  }

  /**
    `shquote(s)`: split on single quotes, quote each piece, and join the
    quoted pieces with an escaped quote, so that `it's` becomes `'it'\''s'`.
  */
  function ShQuote(s: string): string
  {
    Join(WrapAll(SplitOn(s, Quote)), [Backslash, Quote])
  }

  /** The characters between the outer quotes: every `'` spelt `'\''`. */
  function Escaped(s: string): string
  {
    if |s| == 0 then ""
    else (if s[0] == Quote then [Quote, Backslash, Quote, Quote] else [s[0]]) + Escaped(s[1..])
  }

  /** Quoting a list of pieces one head piece at a time. */
  lemma {:induction false} QuotedJoinCons(p: string, ps: seq<string>)
    ensures Join(WrapAll([p] + ps), [Backslash, Quote])
         == "'" + p + "'" + (if |ps| == 0 then "" else [Backslash, Quote] + Join(WrapAll(ps), [Backslash, Quote]))
  {
    assert ([p] + ps)[1..] == ps;
    var w := WrapAll([p] + ps);
    assert w == ["'" + p + "'"] + WrapAll(ps);
    if |ps| > 0 {
      assert w[1..] == WrapAll(ps);
    }
  }

  /** The quoted form is one single-quoted string with each `'` spelt `'\''`. */
  lemma {:induction false} ShQuoteShape(s: string)
    ensures ShQuote(s) == [Quote] + Escaped(s) + [Quote]
  {
    if |s| > 0 {
      ShQuoteShape(s[1..]);
      if s[0] == Quote {
        ShQuoteShapeQuote(s);
      } else {
        ShQuoteShapeOther(s);
      }
    }
  }

  lemma {:induction false} ShQuoteShapeQuote(s: string)
    requires |s| > 0 && s[0] == Quote
    requires ShQuote(s[1..]) == [Quote] + Escaped(s[1..]) + [Quote]
    ensures ShQuote(s) == [Quote] + Escaped(s) + [Quote]
  {
    var sep := [Backslash, Quote];
    var rest := SplitOn(s[1..], Quote);
    var inner := Join(WrapAll(rest), sep);
    assert inner == ShQuote(s[1..]);
    assert SplitOn(s, Quote) == [""] + rest;
    assert |rest| > 0;
    QuotedJoinCons("", rest);
    assert ShQuote(s) == "''" + sep + inner;
    var e := Escaped(s[1..]);
    assert Escaped(s) == [Quote, Backslash, Quote, Quote] + e;
    calc {
      ShQuote(s);
      "''" + sep + ([Quote] + e + [Quote]);
      [Quote] + ([Quote, Backslash, Quote, Quote] + e) + [Quote];
    }
  }

  lemma {:induction false} ShQuoteShapeOther(s: string)
    requires |s| > 0 && s[0] != Quote
    requires ShQuote(s[1..]) == [Quote] + Escaped(s[1..]) + [Quote]
    ensures ShQuote(s) == [Quote] + Escaped(s) + [Quote]
  {
    var sep := [Backslash, Quote];
    var rest := SplitOn(s[1..], Quote);
    var parts := [[s[0]] + rest[0]] + rest[1..];
    assert SplitOn(s, Quote) == parts;
    QuotedJoinCons([s[0]] + rest[0], rest[1..]);
    QuotedJoinCons(rest[0], rest[1..]);
    assert rest == [rest[0]] + rest[1..];
    var tail := if |rest[1..]| == 0 then "" else sep + Join(WrapAll(rest[1..]), sep);
    PrependInsideQuotes(s[0], rest[0], tail, Escaped(s[1..]));
  }

  /** Sequence bookkeeping for `ShQuoteShapeOther`. */
  lemma PrependInsideQuotes(c: char, r: string, tail: string, e: string)
    requires "'" + r + "'" + tail == [Quote] + e + [Quote]
    ensures "'" + ([c] + r) + "'" + tail == [Quote] + ([c] + e) + [Quote]
  {
    var x := "'" + r + "'" + tail;
    assert x[1..] == r + "'" + tail;
    assert x[1..] == e + [Quote];
    assert "'" + ([c] + r) + "'" + tail == [Quote] + [c] + (r + "'" + tail);
    assert [Quote] + ([c] + e) + [Quote] == [Quote] + [c] + (e + [Quote]);
  }

  // ---------------------------------------------------------------------------
  // Quote removal by a POSIX shell

  /**
    Characters that are not plain word characters when unquoted: the
    operators and quoting characters of section 2.2 of the POSIX.1-2017
    Shell Command Language, blanks, and the characters that may need
    quoting in some contexts (`* ? [ # ~ = %`).
  */
  predicate IsSpecial(c: char) {
    c in "|&;<>()$`\\\"' \t\n*?[#~=%"
  }

  function Prepend(c: char, o: Option<string>): Option<string>
  {
    match o
    case None => None
    case Some(s) => Some([c] + s)
  }

  /**
    The value a shell word denotes after quote removal, outside quotes:
    a backslash preserves the next character (a backslash-newline pair is a
    line continuation and disappears, section 2.2.1), a single quote opens a
    single-quoted run (section 2.2.3), and plain characters stand for
    themselves. `None` for words this model does not give a literal
    meaning: double quotes, unquoted special characters, a trailing
    backslash and an unterminated single quote.
  */
  function Unquote(w: string): Option<string>
    decreases |w|
  {
    if |w| == 0 then Some("")
    else if w[0] == Quote then UnquoteSingle(w[1..])
    else if w[0] == Backslash then
      if |w| == 1 then None
      else if w[1] == '\n' then Unquote(w[2..])
      else Prepend(w[1], Unquote(w[2..]))
    else if IsSpecial(w[0]) then None
    else Prepend(w[0], Unquote(w[1..]))
  }

  /** Inside single quotes every character is literal up to the next single quote. */
  function UnquoteSingle(w: string): Option<string>
    decreases |w|
  {
    if |w| == 0 then None
    else if w[0] == Quote then Unquote(w[1..])
    else Prepend(w[0], UnquoteSingle(w[1..]))
  }

  lemma {:induction false} UnquoteEscaped(s: string, rest: string)
    ensures UnquoteSingle(Escaped(s) + rest) == PrependString(s, UnquoteSingle(rest))
  {
    if |s| > 0 {
      UnquoteEscaped(s[1..], rest);
      var tail := Escaped(s[1..]) + rest;
      assert s == [s[0]] + s[1..];
      if s[0] == Quote {
        var w := [Quote, Backslash, Quote, Quote] + tail;
        assert Escaped(s) + rest == w;
        assert w[1..] == [Backslash, Quote, Quote] + tail;
        assert w[1..][2..] == [Quote] + tail;
        assert ([Quote] + tail)[1..] == tail;
        assert Unquote([Quote] + tail) == UnquoteSingle(tail);
        assert Unquote(w[1..]) == Prepend(Quote, UnquoteSingle(tail));
        assert UnquoteSingle(w) == Prepend(Quote, UnquoteSingle(tail));
      } else {
        var w := [s[0]] + tail;
        assert Escaped(s) + rest == w;
        assert w[1..] == tail;
        assert UnquoteSingle(w) == Prepend(s[0], UnquoteSingle(tail));
      }
      assert UnquoteSingle(Escaped(s) + rest) == Prepend(s[0], UnquoteSingle(tail));
      PrependAll(s[0], s[1..], UnquoteSingle(rest));
      assert Prepend(s[0], PrependString(s[1..], UnquoteSingle(rest))) == PrependString(s, UnquoteSingle(rest));
    } else {
      assert Escaped(s) + rest == rest;
      match UnquoteSingle(rest)
      case None =>
      case Some(t) => assert s + t == t;
    }
  }

  /** Prepends a whole string to a present value. */
  function PrependString(s: string, o: Option<string>): Option<string>
  {
    match o
    case None => None
    case Some(t) => Some(s + t)
  }

  lemma PrependAll(c: char, s: string, o: Option<string>)
    ensures Prepend(c, PrependString(s, o)) == PrependString([c] + s, o)
  {
    match o
    case None =>
    case Some(t) => assert [c] + (s + t) == ([c] + s) + t;
  }

  /** Removing the quotes that `ShQuote` adds gives back the original string. */
  lemma ShQuoteRoundTrip(s: string)
    ensures Unquote(ShQuote(s)) == Some(s)
  {
    ShQuoteShape(s);
    var w := [Quote] + Escaped(s) + [Quote];
    assert w[1..] == Escaped(s) + [Quote];
    UnquoteEscaped(s, [Quote]);
    assert UnquoteSingle([Quote]) == Some("");
    assert s + "" == s;
  }

  /** Distinct strings have distinct quoted forms. */
  lemma ShQuoteInjective(a: string, b: string)
    requires ShQuote(a) == ShQuote(b)
    ensures a == b
  {
    ShQuoteRoundTrip(a);
    ShQuoteRoundTrip(b);
  }

  /** A string without single quotes is simply wrapped in a pair of them. */
  lemma {:induction false} ShQuoteQuoteFree(s: string)
    requires Quote !in s
    ensures ShQuote(s) == "'" + s + "'"
  {
    ShQuoteShape(s);
    EscapedQuoteFree(s);
  }

  lemma {:induction false} EscapedQuoteFree(s: string)
    requires Quote !in s
    ensures Escaped(s) == s
  {
    if |s| > 0 {
      assert Quote !in s[1..];
      EscapedQuoteFree(s[1..]);
    }
  }

  /** The worked example: `it's` is quoted as `'it'\''s'`. */
  lemma ShQuoteExample()
    ensures ShQuote("it's") == "'it'\\''s'"
  {
    ShQuoteShape("it's");
    assert "it's"[1..] == "t's";
    assert "t's"[1..] == "'s";
    assert "'s"[1..] == "s";
    assert "s"[1..] == "";
  }

  /** Quoting adds no line breaks: the quoted form has exactly the newlines of `s`. */
  lemma ShQuoteNewlines(s: string)
    ensures Count(ShQuote(s), '\n') == Count(s, '\n')
  {
    ShQuoteShape(s);
    EscapedNewlines(s);
    CountAppend([Quote] + Escaped(s), [Quote], '\n');
    CountAppend([Quote], Escaped(s), '\n');
  }

  lemma {:induction false} EscapedNewlines(s: string)
    ensures Count(Escaped(s), '\n') == Count(s, '\n')
  {
    if |s| > 0 {
      EscapedNewlines(s[1..]);
      var head := if s[0] == Quote then [Quote, Backslash, Quote, Quote] else [s[0]];
      CountAppend(head, Escaped(s[1..]), '\n');
    }
  }
}

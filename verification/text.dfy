/**
  Strings, bytes and the few text facts the installer relies on: occurrence
  counting (Python's `str.count` of a one-character string), UTF-8 encoding
  (`str.encode('utf-8')`), decimal rendering of integers (`str(n)`) and the
  line skipping that the installer stub performs on itself (`tail -n +K`).
*/
module Text {

  /** An octet of a file's contents. */
  newtype byte = x: int | 0 <= x < 256

  /** The line-feed byte. */
  const LF: byte := 10

  /** Number of occurrences of `x` in `s`. */
  function Count<T(==)>(s: seq<T>, x: T): (n: nat)
    ensures n <= |s|
    ensures n == 0 <==> x !in s
  {
    if |s| == 0 then 0
    else (if s[0] == x then 1 else 0) + Count(s[1..], x)
  }

  lemma {:induction false} CountAppend<T>(a: seq<T>, b: seq<T>, x: T)
    ensures Count(a + b, x) == Count(a, x) + Count(b, x)
  {
    if |a| == 0 {
      assert a + b == b;
    } else {
      assert (a + b)[1..] == a[1..] + b;
      CountAppend(a[1..], b, x);
    }
  }

  // ---------------------------------------------------------------------------
  // UTF-8

  /** The UTF-8 encoding of one Unicode scalar value (RFC 3629, section 3). */
  function Utf8Char(c: char): (b: seq<byte>)
    ensures 1 <= |b| <= 4
    ensures c as int < 0x80 ==> b == [c as int as byte]
    ensures c as int >= 0x80 ==> forall i :: 0 <= i < |b| ==> b[i] >= 0x80
  {
    var cp := c as int;
    if cp < 0x80 then [cp as byte]
    else if cp < 0x800 then
      [(0xC0 + cp / 64) as byte, (0x80 + cp % 64) as byte]
    else if cp < 0x1_0000 then
      [(0xE0 + cp / 4096) as byte, (0x80 + (cp / 64) % 64) as byte, (0x80 + cp % 64) as byte]
    else
      [(0xF0 + cp / 262144) as byte, (0x80 + (cp / 4096) % 64) as byte,
       (0x80 + (cp / 64) % 64) as byte, (0x80 + cp % 64) as byte]
  }

  /** The UTF-8 encoding of a string, character by character. */
  function Utf8(s: string): (b: seq<byte>)
    ensures |b| >= |s|
  {
    if |s| == 0 then [] else Utf8Char(s[0]) + Utf8(s[1..])
  }

  lemma {:induction false} Utf8Append(a: string, b: string)
    ensures Utf8(a + b) == Utf8(a) + Utf8(b)
  {
    if |a| == 0 {
      assert a + b == b;
    } else {
      assert (a + b)[1..] == a[1..] + b;
      Utf8Append(a[1..], b);
    }
  }

  /** Only a line feed encodes to a byte 0x0A, and it encodes to exactly that byte. */
  lemma Utf8CharLineFeeds(c: char)
    ensures Count(Utf8Char(c), LF) == (if c == '\n' then 1 else 0)
  {
    var b := Utf8Char(c);
    if c as int >= 0x80 {
      assert LF !in b;
    }
  }

  /** Encoding keeps the number of line breaks: the byte 0x0A occurs once per '\n'. */
  lemma {:induction false} Utf8LineFeeds(s: string)
    ensures Count(Utf8(s), LF) == Count(s, '\n')
  {
    if |s| > 0 {
      Utf8CharLineFeeds(s[0]);
      CountAppend(Utf8Char(s[0]), Utf8(s[1..]), LF);
      Utf8LineFeeds(s[1..]);
    }
  }

  /** The last byte of the encoding of a string that ends in '\n' is 0x0A. */
  lemma {:induction false} Utf8EndsWithLineFeed(s: string)
    requires |s| > 0 && s[|s| - 1] == '\n'
    ensures |Utf8(s)| > 0 && Utf8(s)[|Utf8(s)| - 1] == LF
  {
    var init := s[..|s| - 1];
    assert s == init + ['\n'];
    Utf8Append(init, ['\n']);
    assert Utf8(['\n']) == [LF];
  }

  // ---------------------------------------------------------------------------
  // Decimal numerals

  function DigitChar(d: nat): (c: char)
    requires d < 10
    ensures '0' <= c <= '9'
  {
    ('0' as int + d) as char
  }

  predicate IsDigits(s: string) {
    forall i :: 0 <= i < |s| ==> '0' <= s[i] <= '9'
  }

  /** Python's `str(n)` for a non-negative integer. */
  function Decimal(n: nat): (s: string)
    ensures |s| >= 1 && IsDigits(s)
    ensures |s| > 1 ==> s[0] != '0'
    ensures '\n' !in s
  {
    if n < 10 then [DigitChar(n)] else Decimal(n / 10) + [DigitChar(n % 10)]
  }

  /** The number a string of decimal digits denotes. */
  function DecimalValue(s: string): nat
    requires IsDigits(s)
  {
    if |s| == 0 then 0
    else 10 * DecimalValue(s[..|s| - 1]) + (s[|s| - 1] as int - '0' as int)
  }

  /** Reading back the numeral of `n` gives `n`. */
  lemma {:induction false} DecimalRoundTrip(n: nat)
    ensures DecimalValue(Decimal(n)) == n
  {
    if n >= 10 {
      var s := Decimal(n);
      assert s[..|s| - 1] == Decimal(n / 10);
      DecimalRoundTrip(n / 10);
    }
  }

  // ---------------------------------------------------------------------------
  // Line skipping

  /** Empty, or ending in a line break: text made of whole lines. */
  predicate WholeLines(s: string)
  {
    |s| == 0 || s[|s| - 1] == '\n'
  }

  /** Empty, or ending in a line feed: bytes made of whole lines. */
  predicate WholeByteLines(b: seq<byte>)
  {
    |b| == 0 || b[|b| - 1] == LF
  }

  /**
    What remains of `b` after its first `n` LF-terminated lines are removed:
    `tail -n +K` prints `DropLines(b, K - 1)`.
  */
  function DropLines(b: seq<byte>, n: nat): seq<byte>
  {
    if n == 0 || |b| == 0 then b
    else if b[0] == LF then DropLines(b[1..], n - 1)
    else DropLines(b[1..], n)
  }

  /**
    A prefix that is empty or ends in a line feed consists of exactly
    `Count(p, LF)` whole lines, so skipping that many lines lands on what
    follows it, whatever that is.
  */
  lemma {:induction false} DropLinesAfterPrefix(p: seq<byte>, rest: seq<byte>)
    requires WholeByteLines(p)
    ensures DropLines(p + rest, Count(p, LF)) == rest
  {
    if |p| > 0 {
      assert (p + rest)[1..] == p[1..] + rest;
      DropLinesAfterPrefix(p[1..], rest);
    }
  }

  /**
    A text that is empty or ends in a line break, encoded as UTF-8, is
    skipped by dropping as many lines as it has line breaks.
  */
  lemma Utf8WholeLines(s: string, rest: seq<byte>)
    requires WholeLines(s)
    ensures DropLines(Utf8(s) + rest, Count(s, '\n')) == rest
  {
    Utf8LineFeeds(s);
    if |s| > 0 {
      Utf8EndsWithLineFeed(s);
    }
    DropLinesAfterPrefix(Utf8(s), rest);
  }
}
